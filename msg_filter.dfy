/** FilterResolver (validateMessageFilter and the shouldParse test): turns an
    optional list of names or of type ids into the ids whose records are
    extracted. */
module MsgFilter {
  import opened Framing
  import opened FmtTable

  /** The caller's filter, already decoded from the host's representation:
      absent, a list of message names, or a list of type ids. */
  datatype Filter = NoFilter | ByName(names: seq<seq<byte>>) | ById(ids: seq<byte>)

  /** strcmp(fmt.name, filterName) == 0, both read as C strings. */
  predicate NameMatches(r: FmtRecord, name: seq<byte>)
  {
    r.name == UntilNul(name)
  }

  /** Some table entry declares type `t`. */
  predicate Declared(fmts: seq<FmtRecord>, t: byte)
  {
    exists j :: 0 <= j < |fmts| && fmts[j].typeId == t
  }

  /** What one requested name adds to the resolved ids when the table is
      searched from entry `j` on: the type of the first entry whose name
      matches, or nothing. */
  function NameHitFrom(fmts: seq<FmtRecord>, name: seq<byte>, j: nat): seq<byte>
    decreases |fmts| - j
  {
    if j >= |fmts| then []
    else if NameMatches(fmts[j], name) then [fmts[j].typeId]
    else NameHitFrom(fmts, name, j + 1)
  }

  /** What one requested id adds: the id itself if the table declares it. */
  function IdHit(fmts: seq<FmtRecord>, id: byte): seq<byte>
  {
    if Declared(fmts, id) then [id] else []
  }

  function ResolveNames(fmts: seq<FmtRecord>, names: seq<seq<byte>>): seq<byte>
    decreases |names|
  {
    if |names| == 0 then []
    else ResolveNames(fmts, names[..|names| - 1]) + NameHitFrom(fmts, names[|names| - 1], 0)
  }

  function ResolveIds(fmts: seq<FmtRecord>, ids: seq<byte>): seq<byte>
    decreases |ids|
  {
    if |ids| == 0 then []
    else ResolveIds(fmts, ids[..|ids| - 1]) + IdHit(fmts, ids[|ids| - 1])
  }

  /** The ids validateMessageFilter stores in validIds[0 .. validCount). */
  function ResolveFilter(filter: Filter, fmts: seq<FmtRecord>): seq<byte>
  {
    match filter
    case NoFilter => []
    case ByName(names) => ResolveNames(fmts, names)
    case ById(ids) => ResolveIds(fmts, ids)
  }

  /** shouldParse: a format of type `t` is extracted when no id was resolved
      or `t` is among the resolved ids. */
  predicate Selected(validIds: seq<byte>, t: byte)
  {
    |validIds| == 0 || t in validIds
  }

  /** No entry of the filter matches the table. */
  predicate NothingMatches(filter: Filter, fmts: seq<FmtRecord>)
  {
    match filter
    case NoFilter => true
    case ByName(names) =>
      forall i, j :: 0 <= i < |names| && 0 <= j < |fmts| ==> !NameMatches(fmts[j], names[i])
    case ById(ids) => forall id :: id in ids ==> !Declared(fmts, id)
  }

  /** Resolving one more requested name appends what that name adds. */
  lemma ResolveNamesStep(fmts: seq<FmtRecord>, names: seq<seq<byte>>, i: nat)
    requires i < |names|
    ensures ResolveNames(fmts, names[..i + 1]) == ResolveNames(fmts, names[..i]) + NameHitFrom(fmts, names[i], 0)
  {
    assert names[..i + 1][..i] == names[..i];
  }

  /** Resolving one more requested id appends what that id adds. */
  lemma ResolveIdsStep(fmts: seq<FmtRecord>, ids: seq<byte>, i: nat)
    requires i < |ids|
    ensures ResolveIds(fmts, ids[..i + 1]) == ResolveIds(fmts, ids[..i]) + IdHit(fmts, ids[i])
  {
    assert ids[..i + 1][..i] == ids[..i];
  }

  /** A prefix of the names never resolves more ids than all of them. */
  lemma {:induction false} ResolveNamesPrefix(fmts: seq<FmtRecord>, names: seq<seq<byte>>, i: nat)
    requires i <= |names|
    ensures |ResolveNames(fmts, names[..i])| <= |ResolveNames(fmts, names)|
    decreases |names|
  {
    if i < |names| {
      var init := names[..|names| - 1];
      assert init[..i] == names[..i];
      ResolveNamesPrefix(fmts, init, i);
    } else {
      assert names[..i] == names;
    }
  }

  /** A prefix of the ids never resolves more ids than all of them. */
  lemma {:induction false} ResolveIdsPrefix(fmts: seq<FmtRecord>, ids: seq<byte>, i: nat)
    requires i <= |ids|
    ensures |ResolveIds(fmts, ids[..i])| <= |ResolveIds(fmts, ids)|
    decreases |ids|
  {
    if i < |ids| {
      var init := ids[..|ids| - 1];
      assert init[..i] == ids[..i];
      ResolveIdsPrefix(fmts, init, i);
    } else {
      assert ids[..i] == ids;
    }
  }

  // ---------------------------------------------------------------------
  // One name

  lemma {:induction false} NameHitFirst(fmts: seq<FmtRecord>, name: seq<byte>, j: nat, m: nat)
    requires j <= m < |fmts| && NameMatches(fmts[m], name)
    requires forall k :: j <= k < m ==> !NameMatches(fmts[k], name)
    ensures NameHitFrom(fmts, name, j) == [fmts[m].typeId]
    decreases m - j
  {
    if j < m {
      NameHitFirst(fmts, name, j + 1, m);
    }
  }

  lemma {:induction false} NameHitSound(fmts: seq<FmtRecord>, name: seq<byte>, j: nat)
    ensures |NameHitFrom(fmts, name, j)| <= 1
    ensures forall t :: t in NameHitFrom(fmts, name, j) ==>
      exists m :: j <= m < |fmts| && NameMatches(fmts[m], name) && fmts[m].typeId == t
    ensures NameHitFrom(fmts, name, j) == [] <==>
      forall m :: j <= m < |fmts| ==> !NameMatches(fmts[m], name)
    decreases |fmts| - j
  {
    if j < |fmts| && !NameMatches(fmts[j], name) {
      NameHitSound(fmts, name, j + 1);
    }
  }

  // ---------------------------------------------------------------------
  // Properties of filter resolution

  /** Every resolved id is the type of some table entry. */
  lemma {:induction false} ResolvedIdsDeclared(filter: Filter, fmts: seq<FmtRecord>)
    ensures forall t :: t in ResolveFilter(filter, fmts) ==> Declared(fmts, t)
  {
    match filter
    case NoFilter =>
    case ByName(names) => ResolveNamesSound(fmts, names);
    case ById(ids) => ResolveIdsIff(fmts, ids);
  }

  /** A resolved name contributes the type of an entry carrying that name. */
  lemma {:induction false} ResolveNamesSound(fmts: seq<FmtRecord>, names: seq<seq<byte>>)
    ensures |ResolveNames(fmts, names)| <= |names|
    ensures forall t :: t in ResolveNames(fmts, names) ==>
      exists n, m :: n in names && 0 <= m < |fmts| && NameMatches(fmts[m], n) && fmts[m].typeId == t
    decreases |names|
  {
    if |names| > 0 {
      var init, last := names[..|names| - 1], names[|names| - 1];
      ResolveNamesSound(fmts, init);
      NameHitSound(fmts, last, 0);
      forall t | t in ResolveNames(fmts, names)
        ensures exists n, m :: n in names && 0 <= m < |fmts| && NameMatches(fmts[m], n) && fmts[m].typeId == t
      {
        if t in ResolveNames(fmts, init) {
          var n, m :| n in init && 0 <= m < |fmts| && NameMatches(fmts[m], n) && fmts[m].typeId == t;
          assert n in names;
        } else {
          assert t in NameHitFrom(fmts, last, 0);
          assert last in names;
        }
      }
    }
  }

  /** Every requested name that some entry carries contributes the type of the
      first such entry. */
  lemma {:induction false} ResolveNamesComplete(fmts: seq<FmtRecord>, names: seq<seq<byte>>, i: nat, m: nat)
    requires i < |names| && m < |fmts| && NameMatches(fmts[m], names[i])
    requires forall k :: 0 <= k < m ==> !NameMatches(fmts[k], names[i])
    ensures fmts[m].typeId in ResolveNames(fmts, names)
    decreases |names|
  {
    var init := names[..|names| - 1];
    if i == |names| - 1 {
      NameHitFirst(fmts, names[i], 0, m);
    } else {
      assert names[i] == init[i];
      ResolveNamesComplete(fmts, init, i, m);
    }
  }

  /** An id is resolved exactly when it was requested and the table declares it. */
  lemma {:induction false} ResolveIdsIff(fmts: seq<FmtRecord>, ids: seq<byte>)
    ensures |ResolveIds(fmts, ids)| <= |ids|
    ensures forall t :: t in ResolveIds(fmts, ids) <==> t in ids && Declared(fmts, t)
    decreases |ids|
  {
    if |ids| > 0 {
      var init := ids[..|ids| - 1];
      ResolveIdsIff(fmts, init);
      assert ids == init + [ids[|ids| - 1]];
    }
  }

  /** validCount stays 0, and so every format is selected, exactly when the
      filter is absent, empty, or matches nothing in the table. */
  lemma {:induction false} ResolveEmptyIff(filter: Filter, fmts: seq<FmtRecord>)
    ensures ResolveFilter(filter, fmts) == [] <==> NothingMatches(filter, fmts)
    ensures ResolveFilter(filter, fmts) == [] ==> forall t :: Selected(ResolveFilter(filter, fmts), t)
  {
    match filter
    case NoFilter =>
    case ByName(names) => ResolveNamesEmptyIff(fmts, names);
    case ById(ids) => ResolveIdsEmptyIff(fmts, ids);
  }

  lemma {:induction false} ResolveNamesEmptyIff(fmts: seq<FmtRecord>, names: seq<seq<byte>>)
    ensures ResolveNames(fmts, names) == [] <==>
      forall i, j :: 0 <= i < |names| && 0 <= j < |fmts| ==> !NameMatches(fmts[j], names[i])
    decreases |names|
  {
    if |names| > 0 {
      var init, last := names[..|names| - 1], names[|names| - 1];
      ResolveNamesEmptyIff(fmts, init);
      NameHitSound(fmts, last, 0);
      assert forall i :: 0 <= i < |init| ==> init[i] == names[i];
    }
  }

  lemma ResolveIdsEmptyIff(fmts: seq<FmtRecord>, ids: seq<byte>)
    ensures ResolveIds(fmts, ids) == [] <==> forall id :: id in ids ==> !Declared(fmts, id)
  {
    ResolveIdsIff(fmts, ids);
    var r := ResolveIds(fmts, ids);
    if r != [] {
      assert r[0] in r;
    }
  }
}
