/** Progress cookies (`[done/total]`, `[pct%]`) in header titles, recomputed from
    the header's direct children or, failing those, from its checkbox items
    (`updateCookiesOfHeaderWithId` and friends in `src/reducers/org.js`). */
module Cookies {
  import opened Wrappers
  import opened OrgTypes
  import opened OrgUtils
  import opened OrgFiles

  /** `completionStates.filter(isDone => isDone).length`. */
  function CountTrue(states: seq<bool>): (n: nat)
    ensures n <= |states|
    ensures n == 0 <== forall i :: 0 <= i < |states| ==> !states[i]
    ensures n == |states| <== forall i :: 0 <= i < |states| ==> states[i]
  {
    if |states| == 0 then 0
    else CountTrue(states[..|states| - 1]) + (if states[|states| - 1] then 1 else 0)
  }

  /** `Math.floor((done / total) * 100)`, with the 0/0 NaN as None. */
  function Percentage(done: nat, total: nat): (r: Option<nat>)
    requires done <= total
    ensures r.None? <==> total == 0
    ensures r.Some? ==> r.value <= 100 &&
                        r.value * total <= 100 * done < (r.value + 1) * total
  {
    if total == 0 then None
    else
      var q := 100 * done / total;
      Some(q)
  }

  /** `updateCookiesInAttributedStringWithChildCompletionStates`. */
  function UpdateCookieParts(parts: seq<Part>, states: seq<bool>): (r: seq<Part>)
    ensures |r| == |parts|
  {
    var done := CountTrue(states);
    seq(|parts|, i requires 0 <= i < |parts| =>
      match parts[i]
      case FractionCookie(_) => FractionCookie(Some((done, |states|)))
      case PercentageCookie(_) => PercentageCookie(Percentage(done, |states|))
      case _ => parts[i])
  }

  /** Every cookie reports `done` of `total`; every other part is left as it was,
      and the cookies stay where they were. */
  lemma {:induction false} CookiePartsMeaning(parts: seq<Part>, states: seq<bool>, i: nat)
    requires i < |parts|
    ensures var r := UpdateCookieParts(parts, states)[i];
      (parts[i].FractionCookie? <==> r.FractionCookie?) &&
      (parts[i].PercentageCookie? <==> r.PercentageCookie?) &&
      (r.FractionCookie? ==> r.fraction == Some((CountTrue(states), |states|)) &&
                             r.fraction.value.0 <= r.fraction.value.1) &&
      (r.PercentageCookie? ==> (r.percentage.None? <==> |states| == 0) &&
                               (r.percentage.Some? ==> r.percentage.value <= 100)) &&
      (!parts[i].FractionCookie? && !parts[i].PercentageCookie? ==> r == parts[i])
  {
  }

  /** `todoKeywordSetForKeyword`: the first set listing the keyword, else the first set. */
  function TodoKeywordSetForKeyword(sets: seq<KeywordSet>, keyword: string): (r: KeywordSet)
    requires |sets| > 0
    ensures r in sets
    ensures (exists i :: 0 <= i < |sets| && keyword in sets[i].keywords) ==>
              keyword in r.keywords &&
              exists i :: 0 <= i < |sets| && sets[i] == r &&
                          forall j :: 0 <= j < i ==> keyword !in sets[j].keywords
    ensures (forall i :: 0 <= i < |sets| ==> keyword !in sets[i].keywords) ==> r == sets[0]
  {
    FindSet(sets, keyword, 0)
  }

  function FindSet(sets: seq<KeywordSet>, keyword: string, from: nat): (r: KeywordSet)
    requires 0 < |sets| && from <= |sets|
    requires forall j :: 0 <= j < from ==> keyword !in sets[j].keywords
    ensures r in sets
    ensures (exists i :: from <= i < |sets| && keyword in sets[i].keywords) ==>
              keyword in r.keywords &&
              exists i :: 0 <= i < |sets| && sets[i] == r &&
                          forall j :: 0 <= j < i ==> keyword !in sets[j].keywords
    ensures (forall i :: from <= i < |sets| ==> keyword !in sets[i].keywords) ==> r == sets[0]
    decreases |sets| - from
  {
    if from == |sets| then sets[0]
    else if keyword in sets[from].keywords then sets[from]
    else FindSet(sets, keyword, from + 1)
  }

  /** The completion state of every child that has a TODO keyword: is its keyword a
      completed one of the set it belongs to? */
  function KeywordCompletionStates(children: seq<Header>, sets: seq<KeywordSet>): (r: seq<bool>)
    requires |sets| > 0
    ensures |r| <= |children|
    ensures |r| == 0 <==> forall i :: 0 <= i < |children| ==> children[i].titleLine.Keyword() == ""
  {
    if |children| == 0 then []
    else
      var rest := KeywordCompletionStates(children[1..], sets);
      var kw := children[0].titleLine.Keyword();
      if kw == "" then rest
      else [kw in TodoKeywordSetForKeyword(sets, kw).completedKeywords] + rest
  }

  /** The checkbox items of the plain lists directly in `parts`. */
  function CheckboxItems(parts: seq<Part>): (r: seq<ListItem>)
    ensures forall i :: 0 <= i < |r| ==> r[i].isCheckbox
  {
    if |parts| == 0 then []
    else
      var own := if parts[0].PlainList? then CheckboxesOf(parts[0].items) else [];
      own + CheckboxItems(parts[1..])
  }

  function CheckboxesOf(items: seq<ListItem>): (r: seq<ListItem>)
    ensures forall i :: 0 <= i < |r| ==> r[i].isCheckbox
    ensures forall i :: 0 <= i < |items| && items[i].isCheckbox ==> items[i] in r
  {
    if |items| == 0 then []
    else (if items[0].isCheckbox then [items[0]] else []) + CheckboxesOf(items[1..])
  }

  /** Checked counts as done; unchecked and partial do not. */
  function CheckboxCompletionStates(items: seq<ListItem>): (r: seq<bool>)
    ensures |r| == |items|
    ensures forall i :: 0 <= i < |items| ==> (r[i] <==> items[i].checkboxState == Checked)
  {
    seq(|items|, i requires 0 <= i < |items| => items[i].checkboxState == Checked)
  }

  /** No header from `lo` up to `k` is shallower than header `k`: inside a subtree
      starting at `lo`, the subtree's root is `k`'s parent. */
  predicate NoShallowerBetween(headers: seq<Header>, lo: nat, k: nat)
    requires lo <= k < |headers|
  {
    forall j {:trigger NotShallower(headers, j, k)} :: lo <= j < k ==> NotShallower(headers, j, k)
  }

  /** Header `j` is on header `k`'s level or deeper. */
  predicate NotShallower(headers: seq<Header>, j: nat, k: nat)
    requires j < |headers| && k < |headers|
  {
    headers[j].nestingLevel >= headers[k].nestingLevel
  }

  /** The headers of `headers[lo..n]` with no shallower header before them in that
      range, in order. */
  function ChildrenIn(headers: seq<Header>, lo: nat, n: nat): (r: seq<Header>)
    requires lo <= n <= |headers|
    ensures |r| <= n - lo
    decreases n
  {
    if n == lo then []
    else ChildrenIn(headers, lo, n - 1) +
         (if NoShallowerBetween(headers, lo, n - 1) then [headers[n - 1]] else [])
  }

  /** Every member of `ChildrenIn` is such a header ... */
  lemma {:induction false} ChildrenInWitness(headers: seq<Header>, lo: nat, n: nat, x: Header) returns (k: nat)
    requires lo <= n <= |headers| && x in ChildrenIn(headers, lo, n)
    ensures lo <= k < n && NoShallowerBetween(headers, lo, k) && headers[k] == x
    decreases n
  {
    if x in ChildrenIn(headers, lo, n - 1) {
      k := ChildrenInWitness(headers, lo, n - 1, x);
    } else {
      k := n - 1;
    }
  }

  /** ... and every such header is a member. */
  lemma {:induction false} ChildrenInHas(headers: seq<Header>, lo: nat, n: nat, k: nat)
    requires lo <= k < n <= |headers| && NoShallowerBetween(headers, lo, k)
    ensures headers[k] in ChildrenIn(headers, lo, n)
    decreases n
  {
    if k < n - 1 {
      ChildrenInHas(headers, lo, n - 1, k);
    }
  }

  /** Such a header followed by a run of strictly deeper headers contributes
      exactly itself. */
  lemma {:induction false} ChildrenInRun(headers: seq<Header>, lo: nat, i: nat, e: nat)
    requires lo <= i < e <= |headers| && NoShallowerBetween(headers, lo, i)
    requires forall k :: i < k < e ==> headers[k].nestingLevel > headers[i].nestingLevel
    ensures ChildrenIn(headers, lo, e) == ChildrenIn(headers, lo, i) + [headers[i]]
    decreases e
  {
    if e > i + 1 {
      ChildrenInRun(headers, lo, i, e - 1);
      assert !NotShallower(headers, i, e - 1);
    }
  }

  /** The header at index `hi` (if any) is shallower than every header of
      `headers[lo..hi]`: the range is a whole run of subheaders. */
  predicate Closed(headers: seq<Header>, lo: nat, hi: nat)
    requires lo <= hi <= |headers|
  {
    hi == |headers| || forall k :: lo <= k < hi ==> headers[k].nestingLevel > headers[hi].nestingLevel
  }

  lemma {:induction false} RunEndBound(headers: seq<Header>, from: nat, level: int, hi: nat)
    requires from <= hi <= |headers|
    requires hi == |headers| || headers[hi].nestingLevel <= level
    ensures RunEnd(headers, from, level) <= hi
    decreases hi - from
  {
    if from < hi && headers[from].nestingLevel > level {
      RunEndBound(headers, from + 1, level, hi);
    }
  }

  /** `i += subheadersOfHeaderWithId(headers, subheader.get('id')).size; ++i`:
      the index just past the subtree of the header at `i`. */
  method SkipSubheaders(headers: seq<Header>, i: nat) returns (next: nat)
    requires UniqueIds(headers) && i < |headers|
    ensures next == SubtreeEnd(headers, i)
  {
    var subheaderSubheaders := SubheadersOfHeaderWithId(headers, headers[i].id);
    NumSubheadersOfIndex(headers, i);
    next := i + |subheaderSubheaders| + 1;
  }

  /** The state of the loop below once it has looked at `headers[lo..k]`: the
      children so far, and `k` is either the end or the next child. */
  ghost predicate CollectedUpTo(headers: seq<Header>, lo: nat, hi: nat, k: nat, children: seq<Header>)
    requires lo <= hi <= |headers|
  {
    lo <= k <= hi && children == ChildrenIn(headers, lo, k) && (k < hi ==> NoShallowerBetween(headers, lo, k))
  }

  /** One round of the loop: take the child at `k`, jump past its subtree. */
  lemma CollectStep(headers: seq<Header>, lo: nat, hi: nat, k: nat, children: seq<Header>)
    requires lo <= hi <= |headers| && Closed(headers, lo, hi)
    requires CollectedUpTo(headers, lo, hi, k, children) && k < hi
    ensures k < SubtreeEnd(headers, k) && CollectedUpTo(headers, lo, hi, SubtreeEnd(headers, k), children + [headers[k]])
  {
    var level := headers[k].nestingLevel;
    var e := SubtreeEnd(headers, k);
    assert hi == |headers| || headers[hi].nestingLevel < level;
    RunEndBound(headers, k + 1, level, hi);
    SubtreeEndDeeper(headers, k);
    ChildrenInRun(headers, lo, k, e);
    if e < hi {
      forall j | lo <= j < e
        ensures NotShallower(headers, j, e)
      {
        if j < k {
          assert NotShallower(headers, j, k);
        }
      }
    }
  }

  /** The `for` loop of `updateCookiesOfHeaderWithId` that collects the direct
      children: take a subheader, then skip over its own subheaders. */
  method DirectChildren(headers: seq<Header>, lo: nat, hi: nat) returns (children: seq<Header>)
    requires lo <= hi <= |headers| && UniqueIds(headers) && Closed(headers, lo, hi)
    ensures children == ChildrenIn(headers, lo, hi)
  {
    var subheaders := headers[lo..hi];
    children := [];
    var i := 0;
    while i < |subheaders|
      invariant 0 <= i <= |subheaders|
      invariant CollectedUpTo(headers, lo, hi, lo + i, children)
      decreases |subheaders| - i
    {
      var subheader := subheaders[i];
      assert subheader == headers[lo + i];
      CollectStep(headers, lo, hi, lo + i, children);
      children := children + [subheader];
      var next := SkipSubheaders(headers, lo + i);
      i := next - lo;
    }
  }

  /** Where `subheadersOfHeaderWithId` looks: after the header, or (for a missing or
      null id) from the start of the list up to the first header not deeper than
      the last one. */
  function SubheaderBounds(headers: seq<Header>, id: Option<Id>): (b: (nat, nat))
    requires |headers| > 0
    ensures b.0 <= b.1 <= |headers| && Closed(headers, b.0, b.1)
  {
    var i := if id.Some? then IndexOfHeaderWithId(headers, id.value) else -1;
    if i >= 0 then
      SubtreeEndDeeper(headers, i);
      (i + 1, SubtreeEnd(headers, i))
    else
      var e := RunEnd(headers, 0, headers[|headers| - 1].nestingLevel);
      RunEndDeeper(headers, 0, headers[|headers| - 1].nestingLevel);
      assert e < |headers|;
      (0, e)
  }

  /** The header whose cookies are updated: the one with the id, or the LAST one
      when the id is missing or null (`updateIn(['headers', -1, ...])`). */
  function CookieTarget(headers: seq<Header>, id: Option<Id>): (t: nat)
    requires |headers| > 0
    ensures t < |headers|
  {
    var i := if id.Some? then IndexOfHeaderWithId(headers, id.value) else -1;
    if i >= 0 then i else |headers| - 1
  }

  /** The completion states the cookies count: the keyword-bearing direct
      children, or the header's own checkbox items when no child has a keyword. */
  function CompletionStates(children: seq<Header>, sets: seq<KeywordSet>, description: seq<Part>): (r: seq<bool>)
    requires |sets| > 0
  {
    var states := KeywordCompletionStates(children, sets);
    if |states| == 0 then CheckboxCompletionStates(CheckboxItems(description)) else states
  }

  /** The cookies of header `t` set from `states`, and its raw title re-rendered. */
  function SetTitleCookies(file: OrgFile, t: nat, states: seq<bool>, toRaw: ToRaw): (r: OrgFile)
    requires t < |file.headers|
    ensures |r.headers| == |file.headers| && Ids(r.headers) == Ids(file.headers)
    ensures Levels(r.headers) == Levels(file.headers) && r.todoKeywordSets == file.todoKeywordSets
  {
    var title := UpdateCookieParts(file.headers[t].titleLine.title, states);
    var titleLine := file.headers[t].titleLine.(title := title, rawTitle := toRaw(title));
    file.(headers := file.headers[t := file.headers[t].(titleLine := titleLine)])
  }

  /** What `updateCookiesOfHeaderWithId` computes. */
  function CookiesUpdated(file: OrgFile, id: Option<Id>, toRaw: ToRaw): (r: OrgFile)
    requires WellFormed(file) && |file.headers| > 0
    ensures WellFormed(r) && |r.headers| == |file.headers|
    ensures Ids(r.headers) == Ids(file.headers) && Levels(r.headers) == Levels(file.headers)
  {
    var headers := file.headers;
    var t := CookieTarget(headers, id);
    var b := SubheaderBounds(headers, id);
    var children := ChildrenIn(headers, b.0, b.1);
    SetTitleCookies(file, t, CompletionStates(children, file.todoKeywordSets, headers[t].description), toRaw)
  }

  /** `updateCookiesOfHeaderWithId`. */
  method UpdateCookiesOfHeaderWithId(file: OrgFile, id: Option<Id>, toRaw: ToRaw) returns (r: OrgFile)
    requires WellFormed(file) && |file.headers| > 0
    ensures r == CookiesUpdated(file, id, toRaw)
  {
    var headers := file.headers;
    var headerIndex := CookieTarget(headers, id);
    var b := SubheaderBounds(headers, id);
    var directChildren := DirectChildren(headers, b.0, b.1);
    var completionStates := KeywordCompletionStates(directChildren, file.todoKeywordSets);
    if |completionStates| == 0 {
      completionStates := CheckboxCompletionStates(CheckboxItems(headers[headerIndex].description));
    }
    CookiesUpdatedBy(file, id, toRaw, directChildren, completionStates);
    r := SetTitleCookies(file, headerIndex, completionStates, toRaw);
  }

  /** `CookiesUpdated` given the direct children and the completion states. */
  lemma CookiesUpdatedBy(file: OrgFile, id: Option<Id>, toRaw: ToRaw, children: seq<Header>, states: seq<bool>)
    requires WellFormed(file) && |file.headers| > 0
    requires var b := SubheaderBounds(file.headers, id);
      children == ChildrenIn(file.headers, b.0, b.1)
    requires var t := CookieTarget(file.headers, id);
      var kw := KeywordCompletionStates(children, file.todoKeywordSets);
      states == if |kw| == 0 then CheckboxCompletionStates(CheckboxItems(file.headers[t].description)) else kw
    ensures CookiesUpdated(file, id, toRaw) == SetTitleCookies(file, CookieTarget(file.headers, id), states, toRaw)
  {
  }

  /** Only the target's title and raw title change; ids, levels, every other header
      and the rest of the file stay as they were. */
  lemma CookiesTouchOnlyTarget(file: OrgFile, id: Option<Id>, toRaw: ToRaw)
    requires WellFormed(file) && |file.headers| > 0
    ensures var r := CookiesUpdated(file, id, toRaw);
      var t := CookieTarget(file.headers, id);
      |r.headers| == |file.headers| && Levels(r.headers) == Levels(file.headers) &&
      Ids(r.headers) == Ids(file.headers) &&
      r.todoKeywordSets == file.todoKeywordSets && r.selectedHeaderId == file.selectedHeaderId &&
      r.narrowedHeaderId == file.narrowedHeaderId &&
      r.selectedTableCellId == file.selectedTableCellId &&
      (forall k :: 0 <= k < |file.headers| && k != t ==> r.headers[k] == file.headers[k]) &&
      r.headers[t] == file.headers[t].(titleLine := r.headers[t].titleLine) &&
      r.headers[t].titleLine.todoKeyword == file.headers[t].titleLine.todoKeyword &&
      r.headers[t].titleLine.tags == file.headers[t].titleLine.tags &&
      r.headers[t].titleLine.rawTitle == toRaw(r.headers[t].titleLine.title)
  {
  }

  /** The headers a cookie counts are exactly the direct children: the headers
      after `t` whose nearest earlier shallower header is `t`. */
  lemma {:induction false} DirectChildrenAreChildren(headers: seq<Header>, t: nat, j: nat)
    requires t < |headers| && j < |headers|
    ensures ParentIndex(headers, j) == Some(t) <==>
            t < j < SubtreeEnd(headers, t) && NoShallowerBetween(headers, t + 1, j)
  {
    SubtreeEndDeeper(headers, t);
    if t < j < SubtreeEnd(headers, t) && NoShallowerBetween(headers, t + 1, j) {
      forall k | t + 1 <= k < j
        ensures headers[k].nestingLevel >= headers[j].nestingLevel
      {
        assert NotShallower(headers, k, j);
      }
      assert LastBefore(headers, j, headers[j].nestingLevel) == LastBefore(headers, t + 1, headers[j].nestingLevel);
    }
  }

  /** So the children whose keywords a header's cookies count are exactly the
      headers whose parent it is: each one counted is such a child ... */
  lemma CookieChildIsChild(headers: seq<Header>, t: nat, x: Header) returns (j: nat)
    requires t < |headers| && x in ChildrenIn(headers, t + 1, SubtreeEnd(headers, t))
    ensures j < |headers| && ParentIndex(headers, j) == Some(t) && headers[j] == x
  {
    j := ChildrenInWitness(headers, t + 1, SubtreeEnd(headers, t), x);
    DirectChildrenAreChildren(headers, t, j);
  }

  /** ... and every such child is counted. */
  lemma ChildIsCookieChild(headers: seq<Header>, t: nat, j: nat)
    requires t < |headers| && j < |headers| && ParentIndex(headers, j) == Some(t)
    ensures headers[j] in ChildrenIn(headers, t + 1, SubtreeEnd(headers, t))
  {
    DirectChildrenAreChildren(headers, t, j);
    ChildrenInHas(headers, t + 1, SubtreeEnd(headers, t), j);
  }

  /** For a header that has the id, the cookie update looks at its subtree. */
  lemma CookieBoundsOfPresentId(headers: seq<Header>, id: Id)
    requires |headers| > 0 && IndexOfHeaderWithId(headers, id) >= 0
    ensures var t := IndexOfHeaderWithId(headers, id);
      CookieTarget(headers, Some(id)) == t &&
      SubheaderBounds(headers, Some(id)) == (t + 1, SubtreeEnd(headers, t))
  {
  }

  /** `updateCookiesOfParentOfHeaderWithId`: nothing happens unless the header has
      a parent with a truthy id. */
  method UpdateCookiesOfParentOfHeaderWithId(file: OrgFile, id: Option<Id>, toRaw: ToRaw) returns (r: OrgFile)
    requires WellFormed(file) && |file.headers| > 0
    ensures var p := ParentIdOfHeaderWithId(file.headers, id);
      r == if Truthy(p) then CookiesUpdated(file, p, toRaw) else file
  {
    var parentHeaderId := ParentIdOfHeaderWithId(file.headers, id);
    if !Truthy(parentHeaderId) {
      return file;
    }
    r := UpdateCookiesOfHeaderWithId(file, parentHeaderId, toRaw);
  }
}
