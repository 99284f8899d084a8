/** Header lookups over the flat header sequence (`src/lib/org_utils.js`), plus the
    helpers `org.js` imports from it: the parent, previous-sibling and visibility
    scans are written in the same backward-scan style as the direct-parent lookup. */
module OrgUtils {
  import opened Wrappers
  import opened OrgTypes

  /** `indexOfHeaderWithId`: `findIndex` by id, -1 when no header has the id. */
  function IndexOfHeaderWithId(headers: seq<Header>, id: Id): (r: int)
    ensures -1 <= r < |headers|
    ensures r >= 0 ==> headers[r].id == id
  {
    IndexOfHeaderWithIdFrom(headers, id, 0)
  }

  /** The `findIndex` scan, from index `from` on. */
  function IndexOfHeaderWithIdFrom(headers: seq<Header>, id: Id, from: nat): (r: int)
    requires from <= |headers|
    ensures -1 <= r < |headers|
    ensures r >= 0 ==> from <= r && headers[r].id == id
    decreases |headers| - from
  {
    if from == |headers| then -1
    else if headers[from].id == id then from
    else IndexOfHeaderWithIdFrom(headers, id, from + 1)
  }

  /** The scan from `from` finds the first header with the id at or after
      `from`, and -1 exactly when there is none. */
  lemma {:induction false} IndexOfHeaderWithIdFromFirst(headers: seq<Header>, id: Id, from: nat)
    requires from <= |headers|
    ensures var r := IndexOfHeaderWithIdFrom(headers, id, from);
      (r == -1 <==> forall j :: from <= j < |headers| ==> headers[j].id != id) &&
      (r >= 0 ==> forall j :: from <= j < r ==> headers[j].id != id)
    decreases |headers| - from
  {
    if from < |headers| && headers[from].id != id {
      IndexOfHeaderWithIdFromFirst(headers, id, from + 1);
    }
  }

  /** `indexOfHeaderWithId` is -1 exactly when no header has the id, and
      otherwise the index of the first header that has it. */
  lemma IndexOfHeaderWithIdFirst(headers: seq<Header>, id: Id)
    ensures var r := IndexOfHeaderWithId(headers, id);
      (r == -1 <==> forall j :: 0 <= j < |headers| ==> headers[j].id != id) &&
      (r >= 0 ==> forall j :: 0 <= j < r ==> headers[j].id != id)
  {
    IndexOfHeaderWithIdFromFirst(headers, id, 0);
  }

  /** With unique ids, the index of the id of the header at `i` is `i`. */
  lemma IndexOfUniqueId(headers: seq<Header>, i: nat)
    requires UniqueIds(headers) && i < |headers|
    ensures IndexOfHeaderWithId(headers, headers[i].id) == i
  {
    var ids := Ids(headers);
    assert forall j :: 0 <= j < i ==> ids[j] == headers[j].id && ids[j] != ids[i];
    IndexOfHeaderWithIdFirst(headers, headers[i].id);
  }

  /** `headerWithId`: `headers.get(index)`. For a missing id the index is -1, which
      an Immutable list resolves to its LAST element (undefined when empty). */
  function HeaderWithId(headers: seq<Header>, id: Id): (r: Option<Header>)
    ensures (exists j :: 0 <= j < |headers| && headers[j].id == id) ==>
              r.Some? && r.value.id == id &&
              exists j :: 0 <= j < |headers| && headers[j] == r.value &&
                          forall k :: 0 <= k < j ==> headers[k].id != id
    ensures (forall j :: 0 <= j < |headers| ==> headers[j].id != id) ==>
              r == (if |headers| == 0 then None else Some(headers[|headers| - 1]))
  {
    IndexOfHeaderWithIdFirst(headers, id);
    var i := IndexOfHeaderWithId(headers, id);
    if i >= 0 then Some(headers[i])
    else if |headers| > 0 then Some(headers[|headers| - 1])
    else None
  }

  /** The first index at or after `from` whose level is at or above `level`
      (`findIndex(nestingLevel <= level)`), or the end of the sequence. */
  function RunEnd(headers: seq<Header>, from: nat, level: int): (e: nat)
    requires from <= |headers|
    ensures from <= e <= |headers|
    ensures e == |headers| || headers[e].nestingLevel <= level
    decreases |headers| - from
  {
    if from == |headers| || headers[from].nestingLevel <= level then from
    else RunEnd(headers, from + 1, level)
  }

  /** Every header the run passes over is deeper than `level`. */
  lemma {:induction false} RunEndDeeper(headers: seq<Header>, from: nat, level: int)
    requires from <= |headers|
    ensures forall k :: from <= k < RunEnd(headers, from, level) ==> headers[k].nestingLevel > level
    decreases |headers| - from
  {
    if from < |headers| && headers[from].nestingLevel > level {
      RunEndDeeper(headers, from + 1, level);
    }
  }

  /** One past the last header of the subtree rooted at `i`. */
  function SubtreeEnd(headers: seq<Header>, i: nat): (e: nat)
    requires i < |headers|
    ensures i < e <= |headers|
    ensures e == |headers| || headers[e].nestingLevel <= headers[i].nestingLevel
  {
    RunEnd(headers, i + 1, headers[i].nestingLevel)
  }

  /** The headers between a header and the end of its subtree are deeper than it. */
  lemma SubtreeEndDeeper(headers: seq<Header>, i: nat)
    requires i < |headers|
    ensures forall k :: i < k < SubtreeEnd(headers, i) ==> headers[k].nestingLevel > headers[i].nestingLevel
  {
    RunEndDeeper(headers, i + 1, headers[i].nestingLevel);
  }

  /** `numSubheadersOfHeaderWithId`, by index. */
  function NumSubheaders(headers: seq<Header>, i: nat): (n: nat)
    requires i < |headers|
    ensures i + 1 + n <= |headers|
  {
    SubtreeEnd(headers, i) - i - 1
  }

  /** `subheadersOfHeaderWithId`: the maximal run of strictly deeper headers after
      the header. For a missing id the header is the last one and the run is taken
      from the start of the list (index -1 + 1). */
  function SubheadersOfHeaderWithId(headers: seq<Header>, id: Id): (r: seq<Header>)
    ensures |r| <= |headers|
  {
    var i := IndexOfHeaderWithId(headers, id);
    if i >= 0 then headers[i + 1..SubtreeEnd(headers, i)]
    else if |headers| == 0 then []
    else headers[..RunEnd(headers, 0, headers[|headers| - 1].nestingLevel)]
  }

  /** The subheaders are the maximal contiguous run of strictly deeper headers
      right after the header; for a missing id, the run at the start of the list
      that is deeper than the last header. */
  lemma SubheadersAreMaximalRun(headers: seq<Header>, id: Id)
    ensures var r := SubheadersOfHeaderWithId(headers, id);
      var i := IndexOfHeaderWithId(headers, id);
      i >= 0 ==>
        i + 1 + |r| <= |headers| && r == headers[i + 1..i + 1 + |r|] &&
        (forall k :: 0 <= k < |r| ==> r[k].nestingLevel > headers[i].nestingLevel) &&
        (i + 1 + |r| == |headers| || headers[i + 1 + |r|].nestingLevel <= headers[i].nestingLevel)
    ensures var r := SubheadersOfHeaderWithId(headers, id);
      var i := IndexOfHeaderWithId(headers, id);
      i == -1 && |headers| > 0 ==>
        var last := headers[|headers| - 1].nestingLevel;
        |r| < |headers| && r == headers[..|r|] &&
        (forall k :: 0 <= k < |r| ==> r[k].nestingLevel > last) &&
        headers[|r|].nestingLevel <= last
    ensures |headers| == 0 ==> SubheadersOfHeaderWithId(headers, id) == []
  {
    var i := IndexOfHeaderWithId(headers, id);
    if i >= 0 {
      SubtreeEndDeeper(headers, i);
    } else if |headers| > 0 {
      RunEndDeeper(headers, 0, headers[|headers| - 1].nestingLevel);
    }
  }

  /** With unique ids, the subheaders of the header at `i` are its subtree. */
  lemma SubheadersOfIndex(headers: seq<Header>, i: nat)
    requires UniqueIds(headers) && i < |headers|
    ensures SubheadersOfHeaderWithId(headers, headers[i].id) == headers[i + 1..SubtreeEnd(headers, i)]
  {
    IndexOfUniqueId(headers, i);
  }

  /** ... and so there are `NumSubheaders` of them. */
  lemma NumSubheadersOfIndex(headers: seq<Header>, i: nat)
    requires UniqueIds(headers) && i < |headers|
    ensures |SubheadersOfHeaderWithId(headers, headers[i].id)| == NumSubheaders(headers, i)
  {
    SubheadersOfIndex(headers, i);
  }

  /** Backward scan: the nearest index before `i` whose level is below `bound`. */
  function LastBefore(headers: seq<Header>, i: nat, bound: int): (r: Option<nat>)
    requires i <= |headers|
    ensures r.Some? ==> r.value < i && headers[r.value].nestingLevel < bound &&
                        forall k :: r.value < k < i ==> headers[k].nestingLevel >= bound
    ensures r.None? ==> forall k :: 0 <= k < i ==> headers[k].nestingLevel >= bound
    decreases i
  {
    if i == 0 then None
    else if headers[i - 1].nestingLevel < bound then Some(i - 1)
    else LastBefore(headers, i - 1, bound)
  }

  /** The specification of `directParentIdOfHeaderWithId`, by index: the nearest
      earlier header one level up, unless a shallower header comes first. */
  function DirectParentIndex(headers: seq<Header>, i: nat): (r: Option<nat>)
    requires i < |headers|
    ensures r.Some? ==>
      r.value < i && headers[r.value].nestingLevel + 1 == headers[i].nestingLevel &&
      forall k :: r.value < k < i ==> headers[k].nestingLevel >= headers[i].nestingLevel
    ensures r.None? ==>
      forall j :: 0 <= j < i && headers[j].nestingLevel + 1 == headers[i].nestingLevel ==>
        exists k :: j < k < i && headers[k].nestingLevel < headers[i].nestingLevel
    ensures i == 0 ==> r.None?
  {
    var level := headers[i].nestingLevel;
    match LastBefore(headers, i, level)
    case Some(j) => if headers[j].nestingLevel + 1 == level then Some(j) else None
    case None => None
  }

  /** `directParentIdOfHeaderWithId`: the backward `for` loop with early returns. */
  method DirectParentIdOfHeaderWithId(headers: seq<Header>, id: Id) returns (r: Option<Id>)
    ensures IndexOfHeaderWithId(headers, id) == -1 ==> r == None
    ensures var i := IndexOfHeaderWithId(headers, id);
      i >= 0 ==>
        (r.Some? <==> DirectParentIndex(headers, i).Some?) &&
        (r.Some? ==> r.value == headers[DirectParentIndex(headers, i).value].id)
  {
    var headerIndex := IndexOfHeaderWithId(headers, id);
    if headerIndex == -1 {
      return None;
    }
    var level := headers[headerIndex].nestingLevel;
    var i := headerIndex - 1;
    while i >= 0
      invariant -1 <= i < headerIndex
      invariant LastBefore(headers, headerIndex, level) == LastBefore(headers, i + 1, level)
    {
      if headers[i].nestingLevel + 1 == level {
        return Some(headers[i].id);
      }
      if headers[i].nestingLevel < level {
        return None;
      }
      i := i - 1;
    }
    return None;
  }

  /** `parentIdOfHeaderWithId`, by index: the nearest earlier shallower header. */
  function ParentIndex(headers: seq<Header>, i: nat): (r: Option<nat>)
    requires i < |headers|
    ensures r.Some? ==> r.value < i && headers[r.value].nestingLevel < headers[i].nestingLevel &&
                        forall k :: r.value < k < i ==> headers[k].nestingLevel >= headers[i].nestingLevel
    ensures r.None? ==> forall k :: 0 <= k < i ==> headers[k].nestingLevel >= headers[i].nestingLevel
  {
    LastBefore(headers, i, headers[i].nestingLevel)
  }

  /** `parentIdOfHeaderWithId`: the id of the nearest earlier shallower header.
      For a missing (or null) id the scan starts before index 0 and finds nothing. */
  function ParentIdOfHeaderWithId(headers: seq<Header>, id: Option<Id>): (r: Option<Id>)
    ensures id.None? || IndexOfHeaderWithId(headers, id.value) == -1 ==> r == None
    ensures id.Some? && IndexOfHeaderWithId(headers, id.value) >= 0 ==>
      var i := IndexOfHeaderWithId(headers, id.value);
      (r.Some? <==> ParentIndex(headers, i).Some?) &&
      (r.Some? ==> r.value == headers[ParentIndex(headers, i).value].id)
  {
    if id.None? then None
    else
      var i := IndexOfHeaderWithId(headers, id.value);
      if i == -1 then None
      else match ParentIndex(headers, i)
        case None => None
        case Some(p) => Some(headers[p].id)
  }

  /** The parent found by `ParentIndex` contains the header in its subtree. */
  lemma ParentContainsChild(headers: seq<Header>, i: nat)
    requires i < |headers| && ParentIndex(headers, i).Some?
    ensures var p := ParentIndex(headers, i).value; p < i < SubtreeEnd(headers, p)
  {
  }

  /** `indexOfPreviousSibling`: the nearest earlier header on the same level,
      unless a shallower header comes first. */
  function PreviousSiblingIndex(headers: seq<Header>, i: nat): (r: Option<nat>)
    requires i < |headers|
    ensures r.Some? ==> r.value < i && headers[r.value].nestingLevel == headers[i].nestingLevel &&
                        forall k :: r.value < k < i ==> headers[k].nestingLevel > headers[i].nestingLevel
    ensures r.None? ==> forall j :: 0 <= j < i && headers[j].nestingLevel == headers[i].nestingLevel ==>
                          exists k :: j < k < i && headers[k].nestingLevel < headers[i].nestingLevel
  {
    var level := headers[i].nestingLevel;
    match LastBefore(headers, i, level + 1)
    case Some(j) => if headers[j].nestingLevel == level then Some(j) else None
    case None => None
  }

  /** A header is visible when every ancestor is opened. */
  predicate IsVisible(headers: seq<Header>, i: nat)
    requires i < |headers|
    decreases i
  {
    match ParentIndex(headers, i)
    case None => true
    case Some(p) => headers[p].isOpened && IsVisible(headers, p)
  }

  /** `openDirectParent`, by index: opens the direct parent, if there is one. */
  function OpenDirectParent(headers: seq<Header>, i: nat): (r: seq<Header>)
    requires i < |headers|
    ensures |r| == |headers|
    ensures forall k :: 0 <= k < |headers| ==>
      r[k] == (if Some(k) == DirectParentIndex(headers, i) then headers[k].(isOpened := true)
               else headers[k])
    ensures Ids(r) == Ids(headers) && Levels(r) == Levels(headers)
  {
    match DirectParentIndex(headers, i)
    case None => headers
    case Some(p) => headers[p := headers[p].(isOpened := true)]
  }
}
