/** Folding, unfolding and selection over the header sequence
    (`openHeader`, `toggleHeaderOpened`, `openParentsOfHeader`,
    `selectNextSiblingHeader`, `selectNextVisibleHeader`,
    `selectPreviousVisibleHeader` in `src/reducers/org.js`), all stated against
    the visibility predicate: a header is shown when every ancestor is opened. */
module HeaderView {
  import opened Wrappers
  import opened OrgTypes
  import opened OrgUtils
  import opened OrgFiles

  // ---------------------------------------------------------------------------
  // Scans that read only the nesting levels
  // ---------------------------------------------------------------------------

  lemma LastBeforeAgrees(a: seq<Header>, b: seq<Header>, i: nat, bound: int)
    requires Levels(a) == Levels(b) && i <= |a|
    ensures LastBefore(a, i, bound) == LastBefore(b, i, bound)
  {
    assert forall k :: 0 <= k < |a| ==> a[k].nestingLevel == Levels(a)[k] == b[k].nestingLevel;
  }

  /** Two header sequences with the same levels have the same subtrees, parents
      and previous siblings. */
  lemma LevelsDetermineTree(a: seq<Header>, b: seq<Header>, i: nat)
    requires Levels(a) == Levels(b) && i < |a|
    ensures SubtreeEnd(a, i) == SubtreeEnd(b, i)
    ensures ParentIndex(a, i) == ParentIndex(b, i)
    ensures PreviousSiblingIndex(a, i) == PreviousSiblingIndex(b, i)
  {
    assert forall k :: 0 <= k < |a| ==> a[k].nestingLevel == Levels(a)[k] == b[k].nestingLevel;
    RunEndAgreesOnLevels(a, b, i + 1, a[i].nestingLevel);
    LastBeforeAgrees(a, b, i, a[i].nestingLevel);
    LastBeforeAgrees(a, b, i, a[i].nestingLevel + 1);
  }

  lemma {:induction false} RunEndAgreesOnLevels(a: seq<Header>, b: seq<Header>, from: nat, level: int)
    requires Levels(a) == Levels(b) && from <= |a|
    ensures RunEnd(a, from, level) == RunEnd(b, from, level)
    decreases |a| - from
  {
    assert forall k :: 0 <= k < |a| ==> a[k].nestingLevel == Levels(a)[k] == b[k].nestingLevel;
    if from < |a| && a[from].nestingLevel > level {
      RunEndAgreesOnLevels(a, b, from + 1, level);
    }
  }

  /** Visibility of the header at `i` depends only on the levels and on the
      `opened` flags of the headers before it. */
  lemma {:induction false} VisibilityAgrees(a: seq<Header>, b: seq<Header>, i: nat)
    requires Levels(a) == Levels(b) && i < |a|
    requires forall k :: 0 <= k < i ==> a[k].isOpened == b[k].isOpened
    ensures IsVisible(a, i) == IsVisible(b, i)
    decreases i
  {
    LevelsDetermineTree(a, b, i);
    match ParentIndex(a, i)
    case None =>
    case Some(p) => VisibilityAgrees(a, b, p);
  }

  /** A closed header hides every header of its subtree. */
  lemma {:induction false} ClosedHidesSubtree(headers: seq<Header>, i: nat, k: nat)
    requires i < |headers| && i < k < SubtreeEnd(headers, i) && !headers[i].isOpened
    ensures !IsVisible(headers, k)
    decreases k
  {
    var p := ParentIndex(headers, k);
    SubtreeEndDeeper(headers, i);
    assert p.Some? && i <= p.value;
    if p.value != i {
      ClosedHidesSubtree(headers, i, p.value);
    }
  }

  /** The first header has no parent, so it is always visible. */
  lemma FirstIsVisible(headers: seq<Header>)
    requires |headers| > 0
    ensures IsVisible(headers, 0)
  {
  }

  // ---------------------------------------------------------------------------
  // openHeader / toggleHeaderOpened
  // ---------------------------------------------------------------------------

  /** The headers with the `opened` flag of the header at `k` set to `v`. */
  function SetOpened(headers: seq<Header>, k: nat, v: bool): (r: seq<Header>)
    requires k < |headers|
    ensures |r| == |headers| && Ids(r) == Ids(headers) && Levels(r) == Levels(headers)
    ensures r[k].isOpened == v
    ensures forall j :: 0 <= j < |headers| && j != k ==> r[j] == headers[j]
  {
    headers[k := headers[k].(isOpened := v)]
  }

  /** `openHeader`: opens the header with the given id and changes nothing else. */
  function OpenHeader(file: OrgFile, id: Id): (r: OrgFile)
    requires IndexOfHeaderWithId(file.headers, id) >= 0
    ensures var i := IndexOfHeaderWithId(file.headers, id);
      r == file.(headers := SetOpened(file.headers, i, true))
  {
    file.(headers := SetOpened(file.headers, IndexOfHeaderWithId(file.headers, id), true))
  }

  /** The headers after toggling the header at `i`: its flag flips, and when an
      opened header is closed recursively every header of its subtree is closed. */
  function Toggled(headers: seq<Header>, i: nat, closeSubheadersRecursively: bool): (r: seq<Header>)
    requires i < |headers|
    ensures |r| == |headers| && Ids(r) == Ids(headers) && Levels(r) == Levels(headers)
  {
    var isOpened := headers[i].isOpened;
    var e := SubtreeEnd(headers, i);
    seq(|headers|, k requires 0 <= k < |headers| =>
      if k == i then headers[k].(isOpened := !isOpened)
      else if isOpened && closeSubheadersRecursively && i < k < e then headers[k].(isOpened := false)
      else headers[k])
  }

  /** `toggleHeaderOpened`: a no-op on an opened header the view is narrowed to;
      otherwise the `forEach` over the subheader indices closes the subtree (when
      asked to), then the header's own flag flips. */
  method ToggleHeaderOpened(file: OrgFile, id: Id, closeSubheadersRecursively: bool) returns (r: OrgFile)
    requires UniqueIds(file.headers) && IndexOfHeaderWithId(file.headers, id) >= 0
    ensures var i := IndexOfHeaderWithId(file.headers, id);
      r == if file.headers[i].isOpened && file.narrowedHeaderId == Some(id) then file
           else file.(headers := Toggled(file.headers, i, closeSubheadersRecursively))
  {
    var headers := file.headers;
    var headerIndex := IndexOfHeaderWithId(headers, id);
    var isOpened := headers[headerIndex].isOpened;
    if isOpened && file.narrowedHeaderId == Some(id) {
      return file;
    }
    if isOpened && closeSubheadersRecursively {
      var subheaders := SubheadersOfHeaderWithId(file.headers, id);
      NumSubheadersOfIndex(file.headers, headerIndex);
      ghost var e := SubtreeEnd(file.headers, headerIndex);
      var index := headerIndex + 1;
      while index < headerIndex + 1 + |subheaders|
        invariant headerIndex + 1 <= index <= e
        invariant |headers| == |file.headers|
        invariant forall k :: 0 <= k < |headers| ==>
          headers[k] == if headerIndex < k < index then file.headers[k].(isOpened := false) else file.headers[k]
      {
        headers := headers[index := headers[index].(isOpened := false)];
        index := index + 1;
      }
    }
    headers := headers[headerIndex := headers[headerIndex].(isOpened := !isOpened)];
    r := file.(headers := headers);
  }

  /** Toggling a closed header is `openHeader`. */
  lemma ToggleClosedOpens(file: OrgFile, id: Id, closeSubheadersRecursively: bool)
    requires IndexOfHeaderWithId(file.headers, id) >= 0
    requires !file.headers[IndexOfHeaderWithId(file.headers, id)].isOpened
    ensures var i := IndexOfHeaderWithId(file.headers, id);
      file.(headers := Toggled(file.headers, i, closeSubheadersRecursively)) == OpenHeader(file, id)
  {
    var i := IndexOfHeaderWithId(file.headers, id);
    assert Toggled(file.headers, i, closeSubheadersRecursively) == SetOpened(file.headers, i, true);
  }

  /** Toggling twice without closing recursively restores the headers. */
  lemma ToggleTwice(headers: seq<Header>, i: nat)
    requires i < |headers|
    ensures Toggled(Toggled(headers, i, false), i, false) == headers
  {
  }

  /** Closing a header hides its whole subtree. */
  lemma ToggleClosedHides(headers: seq<Header>, i: nat, closeSubheadersRecursively: bool, k: nat)
    requires i < |headers| && headers[i].isOpened
    requires i < k < SubtreeEnd(headers, i)
    ensures !IsVisible(Toggled(headers, i, closeSubheadersRecursively), k)
  {
    var t := Toggled(headers, i, closeSubheadersRecursively);
    LevelsDetermineTree(headers, t, i);
    ClosedHidesSubtree(t, i, k);
  }

  /** Opening a visible header makes each of its children visible. */
  lemma ToggleOpenedShows(headers: seq<Header>, i: nat, closeSubheadersRecursively: bool, k: nat)
    requires i < k < |headers| && !headers[i].isOpened && IsVisible(headers, i)
    requires ParentIndex(headers, k) == Some(i)
    ensures IsVisible(Toggled(headers, i, closeSubheadersRecursively), k)
  {
    var t := Toggled(headers, i, closeSubheadersRecursively);
    LevelsDetermineTree(headers, t, k);
    VisibilityAgrees(headers, t, i);
  }

  // ---------------------------------------------------------------------------
  // openParentsOfHeader
  // ---------------------------------------------------------------------------

  /** What `openParentsOfHeader` does as written: walks up the ancestors opening
      each, but the loop test `!!parentHeaderId` also stops at an ancestor whose
      id is 0, the id `getNextId` hands to the first header ever parsed. */
  function OpenAncestorsAsWritten(headers: seq<Header>, i: nat): (r: seq<Header>)
    requires i < |headers|
    ensures |r| == |headers| && Ids(r) == Ids(headers) && Levels(r) == Levels(headers)
    decreases i
  {
    match ParentIndex(headers, i)
    case None => headers
    case Some(p) =>
      if headers[p].id == 0 then headers
      else OpenAncestorsAsWritten(SetOpened(headers, p, true), p)
  }

  /** The intended `openParentsOfHeader`: every ancestor opened. */
  function OpenAncestors(headers: seq<Header>, i: nat): (r: seq<Header>)
    requires i < |headers|
    ensures |r| == |headers| && Ids(r) == Ids(headers) && Levels(r) == Levels(headers)
    decreases i
  {
    match ParentIndex(headers, i)
    case None => headers
    case Some(p) => OpenAncestors(SetOpened(headers, p, true), p)
  }

  /** Opening ancestors only ever sets `opened` flags. */
  lemma {:induction false} OpenAncestorsOnlyOpens(headers: seq<Header>, i: nat, k: nat)
    requires i < |headers| && k < |headers|
    ensures var r := OpenAncestors(headers, i);
      r[k] == headers[k] || r[k] == headers[k].(isOpened := true)
    ensures headers[k].isOpened ==> OpenAncestors(headers, i)[k].isOpened
    decreases i
  {
    match ParentIndex(headers, i)
    case None =>
    case Some(p) => OpenAncestorsOnlyOpens(SetOpened(headers, p, true), p, k);
  }

  /** After opening its ancestors, the header is visible. */
  lemma {:induction false} OpenAncestorsShows(headers: seq<Header>, i: nat)
    requires i < |headers|
    ensures IsVisible(OpenAncestors(headers, i), i)
    decreases i
  {
    var r := OpenAncestors(headers, i);
    LevelsDetermineTree(headers, r, i);
    match ParentIndex(headers, i)
    case None =>
    case Some(p) =>
      var withParent := SetOpened(headers, p, true);
      OpenAncestorsShows(withParent, p);
      OpenAncestorsOnlyOpens(withParent, p, p);
  }

  /** The as-written walk leaves a header hidden: below a closed first header
      (id 0), a closed child stays hidden after `openParentsOfHeader`. */
  lemma AsWrittenLeavesHidden()
    ensures var t := TitleLine([], "", None, []);
      var root := Header(0, 1, false, t, "", [], [], [], None, None);
      var child := Header(1, 2, false, t, "", [], [], [], None, None);
      var headers := [root, child];
      UniqueIds(headers) && !IsVisible(OpenAncestorsAsWritten(headers, 1), 1) &&
      IsVisible(OpenAncestors(headers, 1), 1)
  {
    var t := TitleLine([], "", None, []);
    var root := Header(0, 1, false, t, "", [], [], [], None, None);
    var child := Header(1, 2, false, t, "", [], [], [], None, None);
    var headers := [root, child];
    assert ParentIndex(headers, 1) == Some(0);
    assert OpenAncestorsAsWritten(headers, 1) == headers;
    OpenAncestorsShows(headers, 1);
  }

  /** Loop step shared by both walks: with unique ids, the index of the parent id
      is the parent index, and the next parent id is that of the parent's parent. */
  lemma ParentStep(headers: seq<Header>, cur: nat, p: nat)
    requires UniqueIds(headers) && cur < |headers| && ParentIndex(headers, cur) == Some(p)
    ensures IndexOfHeaderWithId(headers, headers[p].id) == p
    ensures var withParent := SetOpened(headers, p, true);
      UniqueIds(withParent) &&
      ParentIdOfHeaderWithId(withParent, Some(headers[p].id)) == ParentIdOfHeaderWithId(withParent, Some(withParent[p].id))
  {
    IndexOfUniqueId(headers, p);
  }

  /** `openParentsOfHeader` as written: the `while (!!parentHeaderId)` loop. */
  method OpenParentsOfHeaderAsWritten(file: OrgFile, id: Id) returns (r: OrgFile)
    requires UniqueIds(file.headers)
    ensures IndexOfHeaderWithId(file.headers, id) == -1 ==> r == file
    ensures IndexOfHeaderWithId(file.headers, id) >= 0 ==>
      r == file.(headers := OpenAncestorsAsWritten(file.headers, IndexOfHeaderWithId(file.headers, id)))
  {
    var headers := file.headers;
    ghost var found := IndexOfHeaderWithId(headers, id) >= 0;
    ghost var cur: nat := if found then IndexOfHeaderWithId(headers, id) else 0;
    var parentHeaderId := ParentIdOfHeaderWithId(headers, Some(id));
    while Truthy(parentHeaderId)
      invariant !found ==> parentHeaderId.None? && headers == file.headers
      invariant found ==> cur < |headers| && UniqueIds(headers)
      invariant found ==> parentHeaderId == ParentIdOfHeaderWithId(headers, Some(headers[cur].id))
      invariant found ==> IndexOfHeaderWithId(headers, headers[cur].id) == cur
      invariant found ==> OpenAncestorsAsWritten(headers, cur) ==
                          OpenAncestorsAsWritten(file.headers, IndexOfHeaderWithId(file.headers, id))
      decreases cur
    {
      var p := ParentIndex(headers, cur).value;
      ParentStep(headers, cur, p);
      var parentHeaderIndex := IndexOfHeaderWithId(headers, parentHeaderId.value);
      headers := headers[parentHeaderIndex := headers[parentHeaderIndex].(isOpened := true)];
      parentHeaderId := ParentIdOfHeaderWithId(headers, parentHeaderId);
      IndexOfUniqueId(headers, p);
      cur := p;
    }
    r := file.(headers := headers);
  }

  /** `openParentsOfHeader` with the loop test the walk needs (`!= null`): opens
      every ancestor, so the header ends up visible. */
  method OpenParentsOfHeader(file: OrgFile, id: Id) returns (r: OrgFile)
    requires UniqueIds(file.headers)
    ensures IndexOfHeaderWithId(file.headers, id) == -1 ==> r == file
    ensures IndexOfHeaderWithId(file.headers, id) >= 0 ==>
      r == file.(headers := OpenAncestors(file.headers, IndexOfHeaderWithId(file.headers, id)))
    ensures IndexOfHeaderWithId(file.headers, id) >= 0 ==> IsVisible(r.headers, IndexOfHeaderWithId(file.headers, id))
  {
    var headers := file.headers;
    ghost var found := IndexOfHeaderWithId(headers, id) >= 0;
    ghost var cur: nat := if found then IndexOfHeaderWithId(headers, id) else 0;
    var parentHeaderId := ParentIdOfHeaderWithId(headers, Some(id));
    while parentHeaderId.Some?
      invariant !found ==> parentHeaderId.None? && headers == file.headers
      invariant found ==> cur < |headers| && UniqueIds(headers)
      invariant found ==> parentHeaderId == ParentIdOfHeaderWithId(headers, Some(headers[cur].id))
      invariant found ==> IndexOfHeaderWithId(headers, headers[cur].id) == cur
      invariant found ==> OpenAncestors(headers, cur) ==
                          OpenAncestors(file.headers, IndexOfHeaderWithId(file.headers, id))
      decreases cur
    {
      var p := ParentIndex(headers, cur).value;
      ParentStep(headers, cur, p);
      var parentHeaderIndex := IndexOfHeaderWithId(headers, parentHeaderId.value);
      headers := headers[parentHeaderIndex := headers[parentHeaderIndex].(isOpened := true)];
      parentHeaderId := ParentIdOfHeaderWithId(headers, parentHeaderId);
      IndexOfUniqueId(headers, p);
      cur := p;
    }
    r := file.(headers := headers);
    if found {
      OpenAncestorsShows(file.headers, IndexOfHeaderWithId(file.headers, id));
    }
  }

  // ---------------------------------------------------------------------------
  // Selection
  // ---------------------------------------------------------------------------

  /** The header `selectNextSiblingHeader` looks at: the entry right after the
      subtree, when it is on the same level. */
  function NextSiblingIndex(headers: seq<Header>, i: nat): (r: Option<nat>)
    requires i < |headers|
  {
    var e := SubtreeEnd(headers, i);
    if e < |headers| && headers[e].nestingLevel == headers[i].nestingLevel then Some(e) else None
  }

  /** The forward lookup agrees with the backward `indexOfPreviousSibling` scan:
      `j` is the next sibling of `i` exactly when `i` is the previous sibling of `j`. */
  lemma NextSiblingIsInverse(headers: seq<Header>, i: nat, j: nat)
    requires i < j < |headers|
    ensures NextSiblingIndex(headers, i) == Some(j) <==> PreviousSiblingIndex(headers, j) == Some(i)
  {
    SubtreeEndDeeper(headers, i);
  }

  /** `selectNextSiblingHeader`. */
  function SelectNextSiblingHeader(file: OrgFile, id: Id): (r: OrgFile)
    requires IndexOfHeaderWithId(file.headers, id) >= 0
    ensures var i := IndexOfHeaderWithId(file.headers, id);
      r == match NextSiblingIndex(file.headers, i)
           case None => file
           case Some(j) => file.(selectedHeaderId := Some(file.headers[j].id))
  {
    var headers := file.headers;
    var headerIndex := IndexOfHeaderWithId(headers, id);
    var nextIndex := SubtreeEnd(headers, headerIndex);
    if nextIndex >= |headers| || headers[nextIndex].nestingLevel != headers[headerIndex].nestingLevel
    then file
    else file.(selectedHeaderId := Some(headers[nextIndex].id))
  }

  /** The first visible header after index `from` (`nextVisibleHeaderAfterIndex`;
      `from` is -1 for a selection that is not in the list). */
  function NextVisibleIndex(headers: seq<Header>, from: int): (r: Option<nat>)
    requires -1 <= from < |headers|
    ensures r.Some? ==> from < r.value < |headers| && IsVisible(headers, r.value) &&
                        forall k :: from < k < r.value ==> !IsVisible(headers, k)
    ensures r.None? ==> forall k :: from < k < |headers| ==> !IsVisible(headers, k)
    decreases |headers| - from
  {
    if from + 1 == |headers| then None
    else if IsVisible(headers, from + 1) then Some(from + 1)
    else NextVisibleIndex(headers, from + 1)
  }

  /** The last visible header before index `i` (`previousVisibleHeaderAfterIndex`). */
  function PreviousVisibleIndex(headers: seq<Header>, i: int): (r: Option<nat>)
    requires -1 <= i <= |headers|
    ensures r.Some? ==> r.value < i && IsVisible(headers, r.value) &&
                        forall k :: r.value < k < i ==> !IsVisible(headers, k)
    ensures r.None? ==> forall k :: 0 <= k < i ==> !IsVisible(headers, k)
    decreases i + 1
  {
    if i <= 0 then None
    else if IsVisible(headers, i - 1) then Some(i - 1)
    else PreviousVisibleIndex(headers, i - 1)
  }

  /** `NextVisibleIndex` finds `j` when `j` is visible and nothing between is. */
  lemma {:induction false} NextVisibleIs(headers: seq<Header>, from: int, j: nat)
    requires -1 <= from < j < |headers| && IsVisible(headers, j)
    requires forall k :: from < k < j ==> !IsVisible(headers, k)
    ensures NextVisibleIndex(headers, from) == Some(j)
    decreases j - from
  {
    if from + 1 < j {
      NextVisibleIs(headers, from + 1, j);
    }
  }

  /** `PreviousVisibleIndex` finds `j` when `j` is visible and nothing between is. */
  lemma {:induction false} PreviousVisibleIs(headers: seq<Header>, i: int, j: nat)
    requires j < i <= |headers| && IsVisible(headers, j)
    requires forall k :: j < k < i ==> !IsVisible(headers, k)
    ensures PreviousVisibleIndex(headers, i) == Some(j)
    decreases i - j
  {
    if j < i - 1 {
      PreviousVisibleIs(headers, i - 1, j);
    }
  }

  /** Moving to the next visible header and back returns to a visible start. */
  lemma NextThenPreviousVisible(headers: seq<Header>, i: nat)
    requires i < |headers| && IsVisible(headers, i) && NextVisibleIndex(headers, i).Some?
    ensures PreviousVisibleIndex(headers, NextVisibleIndex(headers, i).value) == Some(i)
  {
    PreviousVisibleIs(headers, NextVisibleIndex(headers, i).value, i);
  }

  /** And the other way round. */
  lemma PreviousThenNextVisible(headers: seq<Header>, i: nat)
    requires i < |headers| && IsVisible(headers, i) && PreviousVisibleIndex(headers, i).Some?
    ensures NextVisibleIndex(headers, PreviousVisibleIndex(headers, i).value) == Some(i)
  {
    NextVisibleIs(headers, PreviousVisibleIndex(headers, i).value, i);
  }

  /** `selectNextVisibleHeader`: with no selection (`undefined`) the first header
      is selected; otherwise the next visible header, if any. */
  function SelectNextVisibleHeader(file: OrgFile): (r: OrgFile)
    ensures r.headers == file.headers
    ensures file.selectedHeaderId.None? ==>
      r.selectedHeaderId == (if |file.headers| > 0 then Some(file.headers[0].id) else None)
    ensures file.selectedHeaderId.Some? ==>
      var i := IndexOfHeaderWithId(file.headers, file.selectedHeaderId.value);
      match NextVisibleIndex(file.headers, i)
      case None => r == file
      case Some(j) => r == file.(selectedHeaderId := Some(file.headers[j].id))
  {
    var headers := file.headers;
    if file.selectedHeaderId.None? then
      file.(selectedHeaderId := if |headers| > 0 then Some(headers[0].id) else None)
    else
      var headerIndex := IndexOfHeaderWithId(headers, file.selectedHeaderId.value);
      match NextVisibleIndex(headers, headerIndex)
      case None => file
      case Some(j) => file.(selectedHeaderId := Some(headers[j].id))
  }

  /** A selection that is not in the list (index -1) moves to the first header,
      just as no selection does. */
  lemma MissingSelectionSelectsFirst(file: OrgFile)
    requires |file.headers| > 0 && file.selectedHeaderId.Some?
    requires IndexOfHeaderWithId(file.headers, file.selectedHeaderId.value) == -1
    ensures SelectNextVisibleHeader(file).selectedHeaderId == Some(file.headers[0].id)
  {
    FirstIsVisible(file.headers);
  }

  /** `selectPreviousVisibleHeader`. */
  function SelectPreviousVisibleHeader(file: OrgFile): (r: OrgFile)
    ensures r.headers == file.headers
    ensures var i := if file.selectedHeaderId.None? then -1
                     else IndexOfHeaderWithId(file.headers, file.selectedHeaderId.value);
      match PreviousVisibleIndex(file.headers, i)
      case None => r == file
      case Some(j) => r == file.(selectedHeaderId := Some(file.headers[j].id))
  {
    var headers := file.headers;
    var headerIndex := if file.selectedHeaderId.None? then -1
                       else IndexOfHeaderWithId(headers, file.selectedHeaderId.value);
    match PreviousVisibleIndex(headers, headerIndex)
    case None => file
    case Some(j) => file.(selectedHeaderId := Some(headers[j].id))
  }
}
