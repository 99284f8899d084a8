/** The header-tree editing actions of `src/reducers/org.js`: shifting a header or a
    subtree left and right, adding, removing and moving headers among their siblings.
    Each action takes a file state and returns the new one. */
module HeaderTree {
  import opened Wrappers
  import opened OrgTypes
  import opened OrgUtils
  import opened OrgFiles
  import opened Cookies
  import SeqOps
  import ParseOrg

  // ---------------------------------------------------------------------------
  // Shifting nesting levels (`shiftTreeNestingLevel`)
  // ---------------------------------------------------------------------------

  /** The new level of one header: never left of the first column. */
  function ShiftedLevel(level: nat, left: bool): (r: nat)
    ensures left ==> r >= 1 && (level >= 2 ==> r == level - 1) && (level <= 1 ==> r == 1)
    ensures !left ==> r == level + 1
  {
    if left then (if level >= 2 then level - 1 else 1) else level + 1
  }

  function Shift(h: Header, left: bool): Header
  {
    h.(nestingLevel := ShiftedLevel(h.nestingLevel, left))
  }

  /** `headers` with the entries at `lo..hi` shifted and all others untouched. */
  function ShiftRange(headers: seq<Header>, lo: nat, hi: nat, left: bool): (r: seq<Header>)
    requires lo <= hi <= |headers|
    ensures |r| == |headers|
    ensures forall k :: 0 <= k < |headers| ==>
      r[k] == if lo <= k < hi then Shift(headers[k], left) else headers[k]
    ensures Ids(r) == Ids(headers)
  {
    seq(|headers|, k requires 0 <= k < |headers| => if lo <= k < hi then Shift(headers[k], left) else headers[k])
  }

  /** The file after `shiftTreeNestingLevel`: the header at `headerIndex` and the
      next `count` entries moved one column. Only levels change, so the ids stay
      unique. */
  function ShiftedTree(file: OrgFile, headerIndex: nat, count: nat, left: bool): (r: OrgFile)
    requires headerIndex + count < |file.headers|
    ensures Ids(r.headers) == Ids(file.headers) && (WellFormed(r) <==> WellFormed(file))
  {
    file.(headers := ShiftRange(file.headers, headerIndex, headerIndex + count + 1, left))
  }

  /** `shiftTreeNestingLevel`: the header and the next `count` entries move one
      column in the given direction. */
  method ShiftTreeNestingLevel(file: OrgFile, headerIndex: nat, count: nat, left: bool)
    returns (r: OrgFile)
    requires headerIndex + count < |file.headers|
    ensures r == ShiftedTree(file, headerIndex, count, left)
  {
    var headers := file.headers[headerIndex := Shift(file.headers[headerIndex], left)];
    var index := 0;
    while index < count
      invariant 0 <= index <= count
      invariant headers == ShiftRange(file.headers, headerIndex, headerIndex + index + 1, left)
    {
      headers := headers[headerIndex + index + 1 := Shift(headers[headerIndex + index + 1], left)];
      index := index + 1;
    }
    r := file.(headers := headers);
  }

  /** What `updateCookies` computes: the cookies of the former parent (a null id
      addresses the last header, as Immutable's `-1` does), then those of the moved
      header's current parent when it has one with a truthy id. */
  function CookiesAfterMove(file: OrgFile, previousParentId: Option<Id>, id: Id, toRaw: ToRaw): (r: OrgFile)
    requires WellFormed(file) && |file.headers| > 0
    ensures WellFormed(r) && |r.headers| == |file.headers|
    ensures Ids(r.headers) == Ids(file.headers) && Levels(r.headers) == Levels(file.headers)
  {
    var f := CookiesUpdated(file, previousParentId, toRaw);
    var p := ParentIdOfHeaderWithId(f.headers, Some(id));
    if Truthy(p) then CookiesUpdated(f, p, toRaw) else f
  }

  /** `updateCookies`: recompute the cookies of the former parent (a null id
      addresses the last header, as Immutable's `-1` does), then those of the moved
      header's current parent. */
  method UpdateCookies(file: OrgFile, previousParentId: Option<Id>, id: Id, toRaw: ToRaw)
    returns (r: OrgFile)
    requires WellFormed(file) && |file.headers| > 0
    ensures r == CookiesAfterMove(file, previousParentId, id, toRaw)
  {
    r := UpdateCookiesOfHeaderWithId(file, previousParentId, toRaw);
    r := UpdateCookiesOfParentOfHeaderWithId(r, Some(id), toRaw);
  }

  /** Shifting a range right and then left restores it (parsed headers are never
      on column 0). */
  lemma ShiftRightThenLeft(headers: seq<Header>, lo: nat, hi: nat)
    requires lo <= hi <= |headers|
    requires forall k :: lo <= k < hi ==> headers[k].nestingLevel >= 1
    ensures ShiftRange(ShiftRange(headers, lo, hi, false), lo, hi, true) == headers
  {
    var r := ShiftRange(ShiftRange(headers, lo, hi, false), lo, hi, true);
    forall k | 0 <= k < |headers|
      ensures r[k] == headers[k]
    {
      assert r[k].nestingLevel == headers[k].nestingLevel;
    }
  }

  /** Shifting left and then right restores a range none of whose headers is on
      the first column; a header on the first column stays there and so moves one
      level deeper on the way back. */
  lemma ShiftLeftThenRight(headers: seq<Header>, lo: nat, hi: nat)
    requires lo <= hi <= |headers|
    ensures (forall k :: lo <= k < hi ==> headers[k].nestingLevel >= 2) <==>
            ShiftRange(ShiftRange(headers, lo, hi, true), lo, hi, false) == headers
  {
    var r := ShiftRange(ShiftRange(headers, lo, hi, true), lo, hi, false);
    if forall k :: lo <= k < hi ==> headers[k].nestingLevel >= 2 {
      forall k | 0 <= k < |headers|
        ensures r[k] == headers[k]
      {
        assert r[k].nestingLevel == headers[k].nestingLevel;
      }
    } else {
      var k :| lo <= k < hi && headers[k].nestingLevel < 2;
      assert r[k].nestingLevel == 2;
    }
  }

  /** `RunEnd` depends only on which entries, up to the first one that stops the
      run, are deeper than the bound. */
  lemma {:induction false} RunEndAgrees(a: seq<Header>, la: int, b: seq<Header>, lb: int, from: nat)
    requires |a| == |b| && from <= |a|
    requires var e := RunEnd(a, from, la);
      forall k :: from <= k <= e && k < |a| ==> (a[k].nestingLevel > la <==> b[k].nestingLevel > lb)
    ensures RunEnd(b, from, lb) == RunEnd(a, from, la)
    decreases |a| - from
  {
    if from < |a| && a[from].nestingLevel > la {
      RunEndAgrees(a, la, b, lb, from + 1);
    }
  }

  /** Shifting a whole subtree right keeps exactly the same headers beneath it. */
  lemma ShiftSubtreeRightKeepsSubtree(headers: seq<Header>, i: nat)
    requires i < |headers|
    ensures var e := SubtreeEnd(headers, i);
      SubtreeEnd(ShiftRange(headers, i, e, false), i) == e
  {
    var e := SubtreeEnd(headers, i);
    var shifted := ShiftRange(headers, i, e, false);
    RunEndAgrees(headers, headers[i].nestingLevel, shifted, shifted[i].nestingLevel, i + 1);
  }

  /** With unique ids, `1 + subheaders.size` entries starting at the header are
      exactly its subtree. */
  lemma SubtreeCount(headers: seq<Header>, id: Id)
    requires UniqueIds(headers) && IndexOfHeaderWithId(headers, id) >= 0
    ensures var i := IndexOfHeaderWithId(headers, id);
      i + |SubheadersOfHeaderWithId(headers, id)| + 1 == SubtreeEnd(headers, i)
  {
  }

  // ---------------------------------------------------------------------------
  // The four shift actions
  // ---------------------------------------------------------------------------

  /** `moveHeaderLeft`: only the header moves one column left (not past the first);
      its subheaders stay where they are. Then the cookies are recounted. */
  method MoveHeaderLeft(file: OrgFile, id: Id, toRaw: ToRaw) returns (r: OrgFile)
    requires WellFormed(file) && IndexOfHeaderWithId(file.headers, id) >= 0
    ensures var i := IndexOfHeaderWithId(file.headers, id);
      r == CookiesAfterMove(ShiftedTree(file, i, 0, true),
                            ParentIdOfHeaderWithId(file.headers, Some(id)), id, toRaw)
  {
    var headerIndex: nat := IndexOfHeaderWithId(file.headers, id);
    var previousParentHeaderId := ParentIdOfHeaderWithId(file.headers, Some(id));
    r := ShiftTreeNestingLevel(file, headerIndex, 0, true);
    r := UpdateCookies(r, previousParentHeaderId, id, toRaw);
  }

  /** `moveHeaderRight`: only the header moves one column right, its new direct
      parent is opened, then the cookies are recounted. */
  method MoveHeaderRight(file: OrgFile, id: Id, toRaw: ToRaw) returns (r: OrgFile)
    requires WellFormed(file) && IndexOfHeaderWithId(file.headers, id) >= 0
    ensures var i := IndexOfHeaderWithId(file.headers, id);
      var shifted := ShiftedTree(file, i, 0, false);
      r == CookiesAfterMove(shifted.(headers := OpenDirectParent(shifted.headers, i)),
                            ParentIdOfHeaderWithId(file.headers, Some(id)), id, toRaw)
  {
    var headerIndex: nat := IndexOfHeaderWithId(file.headers, id);
    var previousParentHeaderId := ParentIdOfHeaderWithId(file.headers, Some(id));
    r := ShiftTreeNestingLevel(file, headerIndex, 0, false);
    r := r.(headers := OpenDirectParent(r.headers, headerIndex));
    r := UpdateCookies(r, previousParentHeaderId, id, toRaw);
  }

  /** `moveSubtreeLeft`: nothing happens to a header on the first column;
      otherwise the header and its subheaders move one column left. */
  method MoveSubtreeLeft(file: OrgFile, id: Id, toRaw: ToRaw) returns (r: OrgFile)
    requires WellFormed(file) && IndexOfHeaderWithId(file.headers, id) >= 0
    ensures var i := IndexOfHeaderWithId(file.headers, id);
      r == if file.headers[i].nestingLevel == 1 then file
           else CookiesAfterMove(file.(headers := ShiftRange(file.headers, i, SubtreeEnd(file.headers, i), true)),
                                 ParentIdOfHeaderWithId(file.headers, Some(id)), id, toRaw)
  {
    var headerIndex: nat := IndexOfHeaderWithId(file.headers, id);
    var previousParentHeaderId := ParentIdOfHeaderWithId(file.headers, Some(id));
    if file.headers[headerIndex].nestingLevel == 1 {
      return file;
    }
    var subheaders := SubheadersOfHeaderWithId(file.headers, id);
    SubtreeCount(file.headers, id);
    r := ShiftTreeNestingLevel(file, headerIndex, |subheaders|, true);
    assert r == file.(headers := ShiftRange(file.headers, headerIndex, SubtreeEnd(file.headers, headerIndex), true));
    r := UpdateCookies(r, previousParentHeaderId, id, toRaw);
  }

  /** `moveSubtreeRight`: the header and its subheaders move one column right, the
      cookies are recounted, then the new direct parent is opened. */
  method MoveSubtreeRight(file: OrgFile, id: Id, toRaw: ToRaw) returns (r: OrgFile)
    requires WellFormed(file) && IndexOfHeaderWithId(file.headers, id) >= 0
    ensures var i := IndexOfHeaderWithId(file.headers, id);
      var f := CookiesAfterMove(file.(headers := ShiftRange(file.headers, i, SubtreeEnd(file.headers, i), false)),
                                ParentIdOfHeaderWithId(file.headers, Some(id)), id, toRaw);
      r == f.(headers := OpenDirectParent(f.headers, i))
  {
    var headerIndex: nat := IndexOfHeaderWithId(file.headers, id);
    var previousParentHeaderId := ParentIdOfHeaderWithId(file.headers, Some(id));
    var subheaders := SubheadersOfHeaderWithId(file.headers, id);
    SubtreeCount(file.headers, id);
    r := ShiftTreeNestingLevel(file, headerIndex, |subheaders|, false);
    assert r == file.(headers := ShiftRange(file.headers, headerIndex, SubtreeEnd(file.headers, headerIndex), false));
    r := UpdateCookies(r, previousParentHeaderId, id, toRaw);
    r := r.(headers := OpenDirectParent(r.headers, headerIndex));
  }
}
