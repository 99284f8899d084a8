/** Filing a capture into a file (`insertCapture` and `insertCapturePosition` in
    `src/reducers/org.js`): at the top or bottom of the file when the template
    names no target header, otherwise as the first or last child of the target,
    whose cookies are then recounted. */
module CaptureInsert {
  import opened Wrappers
  import opened OrgTypes
  import opened OrgFiles
  import opened OrgUtils
  import opened SeqOps
  import opened Cookies
  import HeaderEdit

  /** What `insertCapturePosition` returns; `Unplaced` is its empty object `{}`. */
  datatype Position = Position(newIndex: nat, nestingLevel: nat, parent: Option<nat>) | Unplaced

  /** `insertCapturePosition`. `headerWithPath` (the lookup of the target header
      by its path of titles) is not part of this model: `target` is its answer,
      as an index into `headers`. The index and subtree size are taken by id, as
      the source does. */
  function InsertCapturePosition(headers: seq<Header>, headerPaths: seq<string>, target: Option<nat>,
                                 shouldPrepend: bool): (r: Position)
    requires UniqueIds(headers) && (target.Some? ==> target.value < |headers|)
    ensures |headerPaths| == 0 ==>
      r == Position(if shouldPrepend then 0 else |headers| + 1, 1, None)
    ensures |headerPaths| > 0 && target.None? ==> r.Unplaced?
    ensures |headerPaths| > 0 && target.Some? ==>
      var p := target.value;
      r.Position? && r.parent == target && r.nestingLevel == headers[p].nestingLevel + 1 &&
      r.newIndex == (if shouldPrepend then p + 1 else SubtreeEnd(headers, p))
  {
    if |headerPaths| == 0 then
      if shouldPrepend then Position(0, 1, None) else Position(|headers| + 1, 1, None)
    else if target.None? then Unplaced
    else
      var parentHeader := headers[target.value];
      var parentHeaderIndex := IndexOfHeaderWithId(headers, parentHeader.id);
      IndexOfUniqueId(headers, target.value);
      var numSubheaders := |SubheadersOfHeaderWithId(headers, parentHeader.id)|;
      NumSubheadersOfIndex(headers, target.value);
      var newIndex := parentHeaderIndex + 1 + (if shouldPrepend then 0 else numSubheaders);
      Position(newIndex, parentHeader.nestingLevel + 1, target)
  }

  /** The header list with the captured header inserted at the position, at the
      position's level (an index past the end appends). */
  function Inserted(headers: seq<Header>, newIndex: nat, nestingLevel: nat, header: Header): seq<Header>
  {
    Insert(headers, newIndex, header.(nestingLevel := nestingLevel))
  }

  /** `insertCapture`. `newHeaderFromText` is not part of this model: `header` is
      the header it builds from the capture text, with an id no header has yet.
      Nothing happens when the position is `Unplaced`; after an insertion under a
      parent, the parent's cookies are recounted. */
  function InsertCapture(file: OrgFile, headerPaths: seq<string>, target: Option<nat>, header: Header,
                         shouldPrepend: bool, toRaw: ToRaw): (r: OrgFile)
    requires WellFormed(file) && (target.Some? ==> target.value < |file.headers|)
    requires forall k :: 0 <= k < |file.headers| ==> file.headers[k].id != header.id
    ensures InsertCapturePosition(file.headers, headerPaths, target, shouldPrepend).Unplaced? ==> r == file
    ensures WellFormed(r)
    ensures InsertCapturePosition(file.headers, headerPaths, target, shouldPrepend).Position? ==>
      |r.headers| == |file.headers| + 1
  {
    match InsertCapturePosition(file.headers, headerPaths, target, shouldPrepend)
    case Unplaced => file
    case Position(newIndex, nestingLevel, parent) =>
      var at := if newIndex <= |file.headers| then newIndex else |file.headers|;
      HeaderEdit.UniqueIdsOfInsert(file.headers, at, header.(nestingLevel := nestingLevel));
      assert Insert(file.headers, at, header.(nestingLevel := nestingLevel)) ==
             Inserted(file.headers, newIndex, nestingLevel, header);
      var withHeader := file.(headers := Inserted(file.headers, newIndex, nestingLevel, header));
      if parent.Some? then CookiesUpdated(withHeader, Some(file.headers[parent.value].id), toRaw)
      else withHeader
  }

  /** Without a target the capture becomes the first header (prepending) or the
      last one (appending: index `size + 1` is clamped to the end), at level 1,
      and nothing else changes. */
  lemma {:induction false} CaptureAtFileEdge(file: OrgFile, target: Option<nat>, header: Header,
                                             shouldPrepend: bool, toRaw: ToRaw)
    requires WellFormed(file) && (target.Some? ==> target.value < |file.headers|)
    requires forall k :: 0 <= k < |file.headers| ==> file.headers[k].id != header.id
    ensures var r := InsertCapture(file, [], target, header, shouldPrepend, toRaw);
      var i := if shouldPrepend then 0 else |file.headers|;
      r.headers == file.headers[..i] + [header.(nestingLevel := 1)] + file.headers[i..] &&
      r.selectedHeaderId == file.selectedHeaderId && r.todoKeywordSets == file.todoKeywordSets
  {
  }

  /** The tree shape (parents, subtree ends) depends on the levels alone. */
  lemma {:induction false} SameLevelsSameTree(a: seq<Header>, b: seq<Header>, i: nat, p: nat)
    requires Levels(a) == Levels(b) && i < |a| && p < |a|
    ensures DirectParentIndex(a, i) == DirectParentIndex(b, i)
    ensures SubtreeEnd(a, p) == SubtreeEnd(b, p)
  {
    assert |a| == |b| && forall k :: 0 <= k < |a| ==> a[k].nestingLevel == b[k].nestingLevel by {
      assert forall k :: 0 <= k < |a| ==> Levels(a)[k] == Levels(b)[k];
    }
    RunEndDeeper(a, p + 1, a[p].nestingLevel);
    HeaderEdit.RunEndAt(b, p + 1, a[p].nestingLevel, RunEnd(a, p + 1, a[p].nestingLevel));
    var level := a[i].nestingLevel;
    match LastBefore(a, i, level)
    case Some(j) =>
      HeaderEdit.LastBeforeAt(b, i, level, j);
    case None =>
      match LastBefore(b, i, level)
      case Some(j) =>
        assert false;
      case None =>
  }

  /** Inserting a header one level below `p` right after `p`, or right after
      `p`'s subtree, makes it a direct child of `p`; after the subtree, it becomes
      the subtree's last header. */
  lemma {:induction false} InsertedAsChild(headers: seq<Header>, p: nat, i: nat, x: Header)
    requires p < |headers| && (i == p + 1 || i == SubtreeEnd(headers, p))
    requires x.nestingLevel == headers[p].nestingLevel + 1
    ensures var inserted := Insert(headers, i, x);
      i < |inserted| && inserted[i] == x && DirectParentIndex(inserted, i) == Some(p) &&
      (i == SubtreeEnd(headers, p) ==> SubtreeEnd(inserted, p) == i + 1)
  {
    var inserted := Insert(headers, i, x);
    var level := headers[p].nestingLevel;
    InsertShape(headers, i, x);
    SubtreeEndDeeper(headers, p);
    assert forall k :: p < k < i ==> inserted[k] == headers[k];
    HeaderEdit.LastBeforeAt(inserted, i, level + 1, p);
    if i == SubtreeEnd(headers, p) {
      assert i + 1 == |inserted| || inserted[i + 1].nestingLevel <= level by {
        if i + 1 < |inserted| {
          assert inserted[i + 1] == headers[i];
        }
      }
      HeaderEdit.RunEndAt(inserted, p + 1, level, i + 1);
    }
  }

  /** Under a target, `insertCapture` is the insertion at the target's position
      followed by the recount of the target's cookies. */
  lemma {:induction false} InsertCaptureUnder(file: OrgFile, headerPaths: seq<string>, p: nat, header: Header,
                                              shouldPrepend: bool, toRaw: ToRaw, i: nat, withHeader: OrgFile)
    requires WellFormed(file) && p < |file.headers| && |headerPaths| > 0
    requires forall k :: 0 <= k < |file.headers| ==> file.headers[k].id != header.id
    requires i == if shouldPrepend then p + 1 else SubtreeEnd(file.headers, p)
    requires withHeader == file.(headers := Inserted(file.headers, i, file.headers[p].nestingLevel + 1, header))
    ensures WellFormed(withHeader)
    ensures InsertCapture(file, headerPaths, Some(p), header, shouldPrepend, toRaw) ==
            CookiesUpdated(withHeader, Some(file.headers[p].id), toRaw)
  {
    var level := file.headers[p].nestingLevel + 1;
    HeaderEdit.UniqueIdsOfInsert(file.headers, i, header.(nestingLevel := level));
    assert InsertCapturePosition(file.headers, headerPaths, Some(p), shouldPrepend) == Position(i, level, Some(p));
  }

  /** Under a target, the capture is a direct child of the target: right after it
      when prepending, right after its subtree when appending (so it ends the
      target's subtree); everything before it and the subtree it follows keep
      their levels. */
  lemma {:induction false} CaptureUnderTarget(file: OrgFile, headerPaths: seq<string>, p: nat, header: Header,
                                              shouldPrepend: bool, toRaw: ToRaw)
    requires WellFormed(file) && p < |file.headers| && |headerPaths| > 0
    requires forall k :: 0 <= k < |file.headers| ==> file.headers[k].id != header.id
    ensures var r := InsertCapture(file, headerPaths, Some(p), header, shouldPrepend, toRaw);
      var i := if shouldPrepend then p + 1 else SubtreeEnd(file.headers, p);
      i < |r.headers| && r.headers[i].id == header.id &&
      r.headers[i].nestingLevel == file.headers[p].nestingLevel + 1 &&
      DirectParentIndex(r.headers, i) == Some(p) &&
      (!shouldPrepend ==> SubtreeEnd(r.headers, p) == i + 1)
  {
    var headers := file.headers;
    var level := headers[p].nestingLevel + 1;
    var i := if shouldPrepend then p + 1 else SubtreeEnd(headers, p);
    var x := header.(nestingLevel := level);
    var inserted := Inserted(headers, i, level, header);
    var withHeader := file.(headers := inserted);
    InsertCaptureUnder(file, headerPaths, p, header, shouldPrepend, toRaw, i, withHeader);
    InsertedAsChild(headers, p, i, x);
    var r := CookiesUpdated(withHeader, Some(headers[p].id), toRaw);
    assert Ids(r.headers)[i] == Ids(inserted)[i];
    SameLevelsSameTree(r.headers, inserted, i, p);
  }
}
