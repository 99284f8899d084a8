/** Checkbox toggling in plain lists (`advanceCheckboxState` and
    `updateParentListCheckboxes` in `src/reducers/org.js`): a leaf item cycles its
    state, then every checkbox ancestor up to the first non-checkbox one takes the
    state its checkbox children dictate and recounts the cookies in its title. */
module Checkboxes {
  import opened Wrappers
  import opened OrgTypes
  import opened OrgFiles
  import opened OrgUtils
  import opened Cookies

  /** One step of an item path: a part index, then an item index in that list.
      The first step is taken in a header's description, each further one in the
      contents of the item reached so far (the Immutable path
      `[..., 'description', p, 'items', i, 'contents', p', 'items', i', ...]`). */
  datatype Step = Step(part: nat, item: nat)

  predicate IsItemPath(parts: seq<Part>, path: seq<Step>)
    decreases |path|
  {
    |path| > 0 && path[0].part < |parts| && parts[path[0].part].PlainList? &&
    path[0].item < |parts[path[0].part].items| &&
    (|path| > 1 ==> IsItemPath(parts[path[0].part].items[path[0].item].contents, path[1..]))
  }

  function ItemAt(parts: seq<Part>, path: seq<Step>): ListItem
    requires IsItemPath(parts, path)
    decreases |path|
  {
    var item := parts[path[0].part].items[path[0].item];
    if |path| == 1 then item else ItemAt(item.contents, path[1..])
  }

  /** `setIn(path, x)`: the item at the path replaced by `x`. */
  function WithItem(parts: seq<Part>, path: seq<Step>, x: ListItem): (r: seq<Part>)
    requires IsItemPath(parts, path)
    ensures |r| == |parts|
    decreases |path|
  {
    var step := path[0];
    var items := parts[step.part].items;
    var newItem := if |path| == 1 then x
                   else items[step.item].(contents := WithItem(items[step.item].contents, path[1..], x));
    parts[step.part := PlainList(items[step.item := newItem])]
  }

  /** A prefix of an item path leads to an item too (an ancestor). */
  lemma {:induction false} PrefixIsItemPath(parts: seq<Part>, path: seq<Step>, n: nat)
    requires IsItemPath(parts, path) && 0 < n <= |path|
    ensures IsItemPath(parts, path[..n])
    decreases |path|
  {
    if n > 1 {
      var item := parts[path[0].part].items[path[0].item];
      PrefixIsItemPath(item.contents, path[1..], n - 1);
      assert path[..n][1..] == path[1..][..n - 1];
    }
  }

  /** The replaced item is found where it was put. */
  lemma {:induction false} WithItemAt(parts: seq<Part>, path: seq<Step>, x: ListItem)
    requires IsItemPath(parts, path)
    ensures IsItemPath(WithItem(parts, path, x), path) && ItemAt(WithItem(parts, path, x), path) == x
    decreases |path|
  {
    if |path| > 1 {
      var item := parts[path[0].part].items[path[0].item];
      WithItemAt(item.contents, path[1..], x);
    }
  }

  /** Replacing an item by one with the same contents leaves every item below it
      as it was. */
  lemma {:induction false} WithItemBelow(parts: seq<Part>, q: seq<Step>, x: ListItem, e: seq<Step>)
    requires IsItemPath(parts, q) && IsItemPath(parts, e) && |q| < |e| && e[..|q|] == q
    requires x.contents == ItemAt(parts, q).contents
    ensures IsItemPath(WithItem(parts, q, x), e) && ItemAt(WithItem(parts, q, x), e) == ItemAt(parts, e)
    decreases |q|
  {
    assert e[0] == q[0];
    var item := parts[q[0].part].items[q[0].item];
    if |q| > 1 {
      assert e[1..][..|q| - 1] == q[1..];
      WithItemBelow(item.contents, q[1..], x, e[1..]);
    }
  }

  /** Replacing an item changes only the contents of the items above it. */
  lemma {:induction false} WithItemAbove(parts: seq<Part>, q: seq<Step>, x: ListItem, n: nat)
    requires IsItemPath(parts, q) && 0 < n < |q|
    ensures IsItemPath(parts, q[..n]) && IsItemPath(WithItem(parts, q, x), q[..n])
    ensures var a := ItemAt(parts, q[..n]);
      var b := ItemAt(WithItem(parts, q, x), q[..n]);
      b == a.(contents := b.contents)
    decreases |q|
  {
    PrefixIsItemPath(parts, q, n);
    WithItemAt(parts, q, x);
    PrefixIsItemPath(WithItem(parts, q, x), q, n);
    var item := parts[q[0].part].items[q[0].item];
    if n > 1 {
      assert q[..n][1..] == q[1..][..n - 1];
      WithItemAbove(item.contents, q[1..], x, n - 1);
    }
  }

  /** `{ checked: 'unchecked', unchecked: 'checked', partial: 'unchecked' }`: a
      leaf ends up checked exactly when it was unchecked, never partial. */
  function NextCheckboxState(s: CheckboxState): (r: CheckboxState)
    ensures r != Partial
    ensures r == Checked <==> s == Unchecked
  {
    match s
    case Checked => Unchecked
    case Unchecked => Checked
    case Partial => Unchecked
  }

  /** The states of the checkbox items of the lists directly in `contents`. */
  function ChildStates(contents: seq<Part>): (r: seq<CheckboxState>)
    ensures |r| == |CheckboxItems(contents)|
  {
    var items := CheckboxItems(contents);
    seq(|items|, k requires 0 <= k < |items| => items[k].checkboxState)
  }

  /** Checked when every child is checked (also when there are none), unchecked
      when every child is unchecked, partial otherwise. */
  function ParentState(states: seq<CheckboxState>): (r: CheckboxState)
    ensures r == Checked <==> forall k :: 0 <= k < |states| ==> states[k] == Checked
    ensures r == Unchecked <==> |states| > 0 && forall k :: 0 <= k < |states| ==> states[k] == Unchecked
    ensures r == Partial <==> exists i, j :: 0 <= i < |states| && 0 <= j < |states| &&
                                             states[i] != Checked && states[j] != Unchecked
  {
    if forall k :: 0 <= k < |states| ==> states[k] == Checked then
      assert |states| > 0 ==> states[0] != Unchecked;
      Checked
    else if forall k :: 0 <= k < |states| ==> states[k] == Unchecked then Unchecked
    else Partial
  }

  /** The item has a checkbox among the items of its direct sub-lists. */
  predicate HasCheckboxChildren(item: ListItem)
  {
    |CheckboxItems(item.contents)| > 0
  }

  /** The ancestor at `path` once its children are settled: its state from its
      checkbox children, and its title cookies recounted from them. */
  function Settled(item: ListItem): ListItem
  {
    var children := CheckboxItems(item.contents);
    item.(checkboxState := ParentState(ChildStates(item.contents)),
          titleLine := UpdateCookieParts(item.titleLine, CheckboxCompletionStates(children)))
  }

  /** `updateParentListCheckboxes`: settle the parent of the item at `path`, then
      its parent, and so on; stop at a parent that is not a checkbox and at the
      header (a header has no `isCheckbox`). */
  function UpdateParents(parts: seq<Part>, path: seq<Step>): (r: seq<Part>)
    requires IsItemPath(parts, path)
    decreases |path|
  {
    if |path| <= 1 then parts
    else
      var parentPath := path[..|path| - 1];
      PrefixIsItemPath(parts, path, |path| - 1);
      var parent := ItemAt(parts, parentPath);
      if !parent.isCheckbox then parts
      else
        WithItemAt(parts, parentPath, Settled(parent));
        UpdateParents(WithItem(parts, parentPath, Settled(parent)), parentPath)
  }

  /** The toggled item and everything below it are left as they were. */
  lemma {:induction false} UpdateParentsBelow(parts: seq<Part>, path: seq<Step>, e: seq<Step>)
    requires IsItemPath(parts, path) && IsItemPath(parts, e) && |path| <= |e| && e[..|path|] == path
    ensures IsItemPath(UpdateParents(parts, path), e) && ItemAt(UpdateParents(parts, path), e) == ItemAt(parts, e)
    decreases |path|
  {
    if |path| > 1 {
      var parentPath := path[..|path| - 1];
      PrefixIsItemPath(parts, path, |path| - 1);
      var parent := ItemAt(parts, parentPath);
      if parent.isCheckbox {
        var next := WithItem(parts, parentPath, Settled(parent));
        assert e[..|parentPath|] == parentPath;
        WithItemBelow(parts, parentPath, Settled(parent), e);
        WithItemAt(parts, parentPath, Settled(parent));
        UpdateParentsBelow(next, parentPath, e);
      }
    }
  }

  predicate IsCheckboxAt(parts: seq<Part>, q: seq<Step>)
  {
    IsItemPath(parts, q) && ItemAt(parts, q).isCheckbox
  }

  /** Every ancestor from `n` items deep up to the toggled item's parent is a
      checkbox. */
  predicate CheckboxChain(parts: seq<Part>, path: seq<Step>, n: nat)
  {
    forall m :: n <= m < |path| ==> IsCheckboxAt(parts, path[..m])
  }

  /** Each ancestor reached through a chain of checkboxes ends up settled: its
      state is what its checkbox children dictate and its cookies count them; its
      id, its checkbox flag and its contents are kept. */
  lemma {:induction false} UpdateParentsSettles(parts: seq<Part>, path: seq<Step>, n: nat)
    requires IsItemPath(parts, path) && 0 < n < |path| && CheckboxChain(parts, path, n)
    ensures IsItemPath(parts, path[..n]) && IsItemPath(UpdateParents(parts, path), path[..n])
    ensures var before := ItemAt(parts, path[..n]);
      var after := ItemAt(UpdateParents(parts, path), path[..n]);
      after == Settled(before.(contents := after.contents))
    decreases |path|
  {
    PrefixIsItemPath(parts, path, n);
    var parentPath := path[..|path| - 1];
    PrefixIsItemPath(parts, path, |path| - 1);
    var parent := ItemAt(parts, parentPath);
    assert IsCheckboxAt(parts, parentPath);
    var next := WithItem(parts, parentPath, Settled(parent));
    WithItemAt(parts, parentPath, Settled(parent));
    if n == |path| - 1 {
      UpdateParentsBelow(next, parentPath, parentPath);
    } else {
      assert parentPath[..n] == path[..n];
      WithItemAbove(parts, parentPath, Settled(parent), n);
      forall m | n <= m < |parentPath|
        ensures IsCheckboxAt(next, parentPath[..m])
      {
        assert parentPath[..m] == path[..m];
        assert IsCheckboxAt(parts, path[..m]);
        WithItemAbove(parts, parentPath, Settled(parent), m);
      }
      UpdateParentsSettles(next, parentPath, n);
    }
  }

  /** A parent that is not a checkbox stops the walk: nothing changes. */
  lemma {:induction false} UpdateParentsStops(parts: seq<Part>, path: seq<Step>)
    requires IsItemPath(parts, path) && |path| > 1 && !IsCheckboxAt(parts, path[..|path| - 1])
    ensures UpdateParents(parts, path) == parts
  {
    PrefixIsItemPath(parts, path, |path| - 1);
  }

  /** `advanceCheckboxState` for the item at `path` in header `h`'s description.
      `pathAndPartOfListItemWithIdInHeaders` is not part of this model: the
      item's position is given. An item with checkbox children is left alone;
      otherwise it takes its next state, its ancestors are settled, the header's
      cookies are recounted and its raw description re-rendered. */
  function AdvanceCheckboxState(file: OrgFile, h: nat, path: seq<Step>, toRaw: ToRaw): (r: OrgFile)
    requires WellFormed(file) && h < |file.headers| && IsItemPath(file.headers[h].description, path)
    ensures WellFormed(r) && |r.headers| == |file.headers| && Ids(r.headers) == Ids(file.headers)
    ensures HasCheckboxChildren(ItemAt(file.headers[h].description, path)) ==> r == file
  {
    var description := file.headers[h].description;
    var item := ItemAt(description, path);
    if HasCheckboxChildren(item) then file
    else
      var toggled := WithItem(description, path, item.(checkboxState := NextCheckboxState(item.checkboxState)));
      WithItemAt(description, path, item.(checkboxState := NextCheckboxState(item.checkboxState)));
      var settled := UpdateParents(toggled, path);
      var withList := file.(headers := file.headers[h := file.headers[h].(description := settled)]);
      assert Ids(withList.headers) == Ids(file.headers);
      var counted := CookiesUpdated(withList, Some(file.headers[h].id), toRaw);
      var header := counted.headers[h];
      var r := counted.(headers := counted.headers[h := header.(rawDescription := toRaw(header.description))]);
      assert Ids(r.headers) == Ids(counted.headers);
      r
  }

  /** A leaf item takes its next state, every other header stays, the header's
      raw description is its rendered description, the checkbox ancestors are
      settled (`UpdateParentsSettles`) in the description the header now has, and
      its title carries the cookies `CookiesUpdated` counts on that description. */
  lemma {:induction false} AdvanceCheckboxStateToggles(file: OrgFile, h: nat, path: seq<Step>, toRaw: ToRaw)
    requires WellFormed(file) && h < |file.headers| && IsItemPath(file.headers[h].description, path)
    requires !HasCheckboxChildren(ItemAt(file.headers[h].description, path))
    ensures var r := AdvanceCheckboxState(file, h, path, toRaw);
      var description := file.headers[h].description;
      var item := ItemAt(description, path);
      var toggled := WithItem(description, path, item.(checkboxState := NextCheckboxState(item.checkboxState)));
      IsItemPath(description, path) && IsItemPath(toggled, path) &&
      r.headers[h].description == UpdateParents(toggled, path) &&
      IsItemPath(r.headers[h].description, path) &&
      ItemAt(r.headers[h].description, path).checkboxState == NextCheckboxState(item.checkboxState) &&
      r.headers[h].rawDescription == toRaw(r.headers[h].description) &&
      r.headers[h].titleLine ==
        CookiesUpdated(file.(headers := file.headers[h := file.headers[h].(description := r.headers[h].description)]),
                       Some(file.headers[h].id), toRaw).headers[h].titleLine &&
      (forall k :: 0 <= k < |file.headers| && k != h ==> r.headers[k] == file.headers[k])
  {
    var description := file.headers[h].description;
    var item := ItemAt(description, path);
    var x := item.(checkboxState := NextCheckboxState(item.checkboxState));
    var toggled := WithItem(description, path, x);
    WithItemAt(description, path, x);
    UpdateParentsBelow(toggled, path, path);
    var settled := UpdateParents(toggled, path);
    var withList := file.(headers := file.headers[h := file.headers[h].(description := settled)]);
    assert Ids(withList.headers) == Ids(file.headers);
    IndexOfUniqueId(withList.headers, h);
    CookiesTouchOnlyTarget(withList, Some(file.headers[h].id), toRaw);
  }
}
