/** The header list of the file view (`HeaderList.render` in
    `src/components/OrgFile/components/HeaderList/index.js`): which headers are
    displayed, which have content to expand, and the colour each gets. `render`
    fills an array of records in nested loops; `HeaderRenderData` keeps those
    loops, over arrays. */
module HeaderList {
  import opened Wrappers
  import opened OrgTypes
  import opened OrgUtils
  import HeaderEdit

  /** A header has content when its raw description is non-empty or it has a
      subheader (its subtree reaches past it). */
  predicate HasContent(headers: seq<Header>, i: nat)
    requires i < |headers|
  {
    headers[i].rawDescription != "" || SubtreeEnd(headers, i) > i + 1
  }

  /** The subtree reaches past a header exactly when the next header is deeper. */
  lemma {:induction false} HasContentByNext(headers: seq<Header>, i: nat)
    requires i < |headers|
    ensures HasContent(headers, i) <==>
      headers[i].rawDescription != "" ||
      (i + 1 < |headers| && headers[i + 1].nestingLevel > headers[i].nestingLevel)
  {
    SubtreeEndDeeper(headers, i);
    if i + 1 < |headers| && headers[i + 1].nestingLevel > headers[i].nestingLevel {
      assert SubtreeEnd(headers, i) != i + 1;
    }
  }

  /** While the outer loop is at `idx`, the last header before `idx` whose subtree
      holds `j`: the one whose inner loop wrote `displayed` of `j` last. */
  ghost function Writer(headers: seq<Header>, idx: nat, j: nat): (r: Option<nat>)
    requires idx <= j < |headers|
    ensures r.Some? ==> r.value < idx && SubtreeEnd(headers, r.value) > j
    decreases idx
  {
    if idx == 0 then None
    else if SubtreeEnd(headers, idx - 1) > j then Some(idx - 1)
    else Writer(headers, idx - 1, j)
  }

  /** What `displayed` of `j` holds while the outer loop is at `idx <= j`. */
  ghost function Pending(headers: seq<Header>, idx: nat, j: nat): bool
    requires idx <= j < |headers|
  {
    match Writer(headers, idx, j)
    case None => false
    case Some(a) => headers[a].isOpened && IsVisible(headers, a)
  }

  /** When the outer loop reaches a header, the last writer is its parent. */
  lemma {:induction false} WriterFindsParent(headers: seq<Header>, idx: nat, j: nat)
    requires idx <= j < |headers|
    requires forall i :: idx <= i < j ==> headers[i].nestingLevel >= headers[j].nestingLevel
    ensures Writer(headers, idx, j) == LastBefore(headers, idx, headers[j].nestingLevel)
    decreases idx
  {
    if idx > 0 {
      var i := idx - 1;
      SubtreeEndDeeper(headers, i);
      if headers[i].nestingLevel >= headers[j].nestingLevel {
        assert SubtreeEnd(headers, i) <= j;
        WriterFindsParent(headers, idx - 1, j);
      }
    }
  }

  /** The inner loop's run ends at the end of the header's subtree. */
  lemma {:induction false} RunIsSubtree(headers: seq<Header>, index: nat, f: nat)
    requires index < f <= |headers|
    requires forall k :: index < k < f ==> headers[k].nestingLevel > headers[index].nestingLevel
    requires f == |headers| || headers[f].nestingLevel <= headers[index].nestingLevel
    ensures SubtreeEnd(headers, index) == f
  {
    HeaderEdit.RunEndAt(headers, index + 1, headers[index].nestingLevel, f);
  }

  /** Once the outer loop has passed header `index`, what `displayed` of a later
      header `j` holds depends on whether `j` is in `index`'s subtree. */
  lemma {:induction false} PendingStep(headers: seq<Header>, index: nat, j: nat)
    requires index < j < |headers|
    ensures Pending(headers, index + 1, j) ==
      if j < SubtreeEnd(headers, index) then headers[index].isOpened && IsVisible(headers, index)
      else Pending(headers, index, j)
  {
  }

  /** When the outer loop reaches a header: it is visible exactly when no earlier
      header is shallower or what its parent's inner loop wrote says so. */
  lemma {:induction false} PendingAtTurn(headers: seq<Header>, index: nat)
    requires index < |headers|
    ensures IsVisible(headers, index) <==>
      (forall k :: 0 <= k < index ==> headers[k].nestingLevel >= headers[index].nestingLevel) ||
      Pending(headers, index, index)
  {
    WriterFindsParent(headers, index, index);
    var level := headers[index].nestingLevel;
    match LastBefore(headers, index, level)
    case Some(p) =>
      assert !(headers[p].nestingLevel >= level);
    case None =>
  }

  /** The inner loop of `render` for header `index`: through the run of deeper
      headers that follow it (its subtree), marks it as having content and sets
      each one's `displayed` to "`index` is opened and displayed". */
  method MarkSubtree(headers: seq<Header>, shown: array<bool>, content: array<bool>, index: nat)
    returns (f: nat)
    requires shown.Length == |headers| && content.Length == |headers| && shown != content
    requires index < |headers|
    modifies shown, content
    ensures f == SubtreeEnd(headers, index)
    ensures forall j :: 0 <= j < |headers| ==>
      shown[j] == if index < j < f then headers[index].isOpened && old(shown[index]) else old(shown[j])
    ensures forall i :: 0 <= i < |headers| ==>
      content[i] == if i == index then old(content[index]) || f > index + 1 else old(content[i])
  {
    var nestingLevel := headers[index].nestingLevel;
    f := index + 1;
    while f < |headers|
      invariant index + 1 <= f <= |headers|
      invariant forall k :: index < k < f ==> headers[k].nestingLevel > nestingLevel
      invariant forall j :: 0 <= j < |headers| ==>
        shown[j] == if index < j < f then headers[index].isOpened && old(shown[index]) else old(shown[j])
      invariant forall i :: 0 <= i < |headers| ==>
        content[i] == if i == index then old(content[index]) || f > index + 1 else old(content[i])
    {
      if headers[f].nestingLevel <= nestingLevel {
        break;
      }
      content[index] := true;
      shown[f] := headers[index].isOpened && shown[index];
      f := f + 1;
    }
    RunIsSubtree(headers, index, f);
  }

  /** The outer loop's invariant on `displayed`: final before `index`, what the
      last writer left from `index` on. */
  ghost predicate ShownSoFar(headers: seq<Header>, index: nat, shown: seq<bool>)
    requires index <= |headers| == |shown|
  {
    (forall j :: 0 <= j < index ==> shown[j] == IsVisible(headers, j)) &&
    (forall j :: index <= j < |shown| ==> shown[j] == Pending(headers, index, j))
  }

  /** The outer loop's invariant on `hasContent`: final before `index`, the
      initial `!!rawDescription` from `index` on. */
  ghost predicate ContentSoFar(headers: seq<Header>, index: nat, content: seq<bool>)
    requires index <= |headers| == |content|
  {
    (forall i :: 0 <= i < index ==> content[i] == HasContent(headers, i)) &&
    (forall i :: index <= i < |content| ==> content[i] == (headers[i].rawDescription != ""))
  }

  /** One turn of the outer loop keeps its invariants: `hasNoParents` sets the
      header's own flag, then its inner loop (`MarkSubtree`) marks its subtree. */
  lemma {:induction false} TurnKeeps(headers: seq<Header>, index: nat, hasNoParents: bool, f: nat,
                                     shown0: seq<bool>, shown1: seq<bool>, shown2: seq<bool>,
                                     content1: seq<bool>, content2: seq<bool>)
    requires index < |headers| == |shown0| == |shown1| == |shown2| == |content1| == |content2|
    requires ShownSoFar(headers, index, shown0) && ContentSoFar(headers, index, content1)
    requires hasNoParents == forall k :: 0 <= k < index ==> headers[k].nestingLevel >= headers[index].nestingLevel
    requires shown1 == if hasNoParents then shown0[index := true] else shown0
    requires f == SubtreeEnd(headers, index)
    requires forall j :: 0 <= j < |headers| ==>
      shown2[j] == if index < j < f then headers[index].isOpened && shown1[index] else shown1[j]
    requires forall i :: 0 <= i < |headers| ==>
      content2[i] == if i == index then content1[index] || f > index + 1 else content1[i]
    ensures ShownSoFar(headers, index + 1, shown2) && ContentSoFar(headers, index + 1, content2)
  {
    PendingAtTurn(headers, index);
    assert shown1[index] == IsVisible(headers, index);
    forall j | index < j < |headers|
      ensures shown2[j] == Pending(headers, index + 1, j)
    {
      PendingStep(headers, index, j);
    }
  }

  /** One turn of the outer loop of `render`, for header `index`: `hasNoParents`
      displays it, then the inner loop marks its subtree. */
  method Turn(headers: seq<Header>, shown: array<bool>, content: array<bool>, index: nat)
    requires shown.Length == |headers| && content.Length == |headers| && shown != content
    requires index < |headers|
    requires ShownSoFar(headers, index, shown[..]) && ContentSoFar(headers, index, content[..])
    modifies shown, content
    ensures ShownSoFar(headers, index + 1, shown[..]) && ContentSoFar(headers, index + 1, content[..])
  {
    ghost var shown0 := shown[..];
    var nestingLevel := headers[index].nestingLevel;
    var hasNoParents := forall k :: 0 <= k < index ==> headers[k].nestingLevel >= nestingLevel;
    if hasNoParents {
      shown[index] := true;
    }
    ghost var shown1, content1 := shown[..], content[..];
    var f := MarkSubtree(headers, shown, content, index);
    TurnKeeps(headers, index, hasNoParents, f, shown0, shown1, shown[..], content1, content[..]);
  }

  /** The `displayed` and `hasContent` fields of `render`'s records, computed by
      its loops: a header is displayed exactly when it is visible (every ancestor
      opened; a header without an earlier shallower one always is), and has
      content exactly as `HasContent` says. */
  method HeaderRenderData(headers: seq<Header>) returns (displayed: seq<bool>, hasContent: seq<bool>)
    ensures |displayed| == |headers| && |hasContent| == |headers|
    ensures forall j :: 0 <= j < |headers| ==> displayed[j] == IsVisible(headers, j)
    ensures forall i :: 0 <= i < |headers| ==> hasContent[i] == HasContent(headers, i)
  {
    var n := |headers|;
    var shown := new bool[n](_ => false);
    var content := new bool[n](i requires 0 <= i < n => headers[i].rawDescription != "");
    var index := 0;
    while index < n
      invariant 0 <= index <= n
      invariant ShownSoFar(headers, index, shown[..]) && ContentSoFar(headers, index, content[..])
    {
      Turn(headers, shown, content, index);
      index := index + 1;
    }
    displayed := shown[..];
    hasContent := content[..];
  }

  /** The eight header colours, by nesting level. */
  const HeaderColors: seq<string> := ["rgba(38, 143, 214, 1)", "rgba(42, 164, 168, 1)",
                                      "rgba(181, 142, 78, 1)", "rgba(220, 64, 95, 1)",
                                      "rgba(101, 128, 152, 1)", "rgba(146, 164, 175, 1)",
                                      "rgba(203, 85, 83, 1)", "rgba(108, 119, 202, 1)"]

  /** `headerColors[(nestingLevel - 1) % headerColors.length]` with JavaScript's
      truncating `%`: level 0 gives index -1, which reads `undefined` (None). */
  function Color(nestingLevel: nat): (r: Option<string>)
    ensures nestingLevel == 0 <==> r.None?
    ensures 1 <= nestingLevel <= 8 ==> r == Some(HeaderColors[nestingLevel - 1])
    ensures nestingLevel > 8 ==> r == Color(nestingLevel - 8)
  {
    if nestingLevel == 0 then None
    else
      var k := (nestingLevel - 1) % |HeaderColors|;
      assert nestingLevel > 8 ==> k == (nestingLevel - 9) % 8;
      Some(HeaderColors[k])
  }

  /** One `<Header>` element: the header, its colour, whether it has content and
      whether it is the selected header. */
  datatype Rendered = Rendered(header: Header, color: Option<string>, hasContent: bool, isSelected: bool)

  /** The indices of the displayed headers, ascending (the `filter`). */
  function ShownIndices(displayed: seq<bool>): (r: seq<nat>)
    ensures forall k :: 0 <= k < |r| ==> r[k] < |displayed| && displayed[r[k]]
    ensures forall k, l :: 0 <= k < l < |r| ==> r[k] < r[l]
    ensures forall j :: 0 <= j < |displayed| && displayed[j] ==> j in r
  {
    if |displayed| == 0 then []
    else
      var n := |displayed| - 1;
      var rest := ShownIndices(displayed[..n]);
      if displayed[n] then rest + [n] else rest
  }

  /** The rendered list: the displayed headers in their order, each with its
      colour and `hasContent`. */
  function Shown(headers: seq<Header>, displayed: seq<bool>, hasContent: seq<bool>,
                 selectedHeaderId: Option<Id>): seq<Rendered>
    requires |displayed| == |headers| && |hasContent| == |headers|
  {
    var idx := ShownIndices(displayed);
    seq(|idx|, k requires 0 <= k < |idx| =>
      Rendered(headers[idx[k]], Color(headers[idx[k]].nestingLevel), hasContent[idx[k]],
               selectedHeaderId == Some(headers[idx[k]].id)))
  }

  /** `render`: the records, then the displayed ones with their colours. */
  method Render(headers: seq<Header>, selectedHeaderId: Option<Id>) returns (r: seq<Rendered>)
    ensures var idx := ShownIndices(seq(|headers|, j requires 0 <= j < |headers| => IsVisible(headers, j)));
      |r| == |idx| &&
      forall k :: 0 <= k < |idx| ==>
        r[k].header == headers[idx[k]] && IsVisible(headers, idx[k]) &&
        r[k].color == Color(headers[idx[k]].nestingLevel) && r[k].hasContent == HasContent(headers, idx[k]) &&
        (r[k].isSelected <==> selectedHeaderId == Some(headers[idx[k]].id))
  {
    var displayed, hasContent := HeaderRenderData(headers);
    assert displayed == seq(|headers|, j requires 0 <= j < |headers| => IsVisible(headers, j));
    r := Shown(headers, displayed, hasContent, selectedHeaderId);
  }
}
