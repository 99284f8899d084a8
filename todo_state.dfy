/** `advanceTodoState` (`src/reducers/org.js`): the header's TODO keyword moves to
    the next keyword of its keyword set, or to none after the last one, and the
    parent's progress cookies are brought up to date. */
module TodoState {
  import opened Wrappers
  import opened OrgTypes
  import opened OrgUtils
  import opened OrgFiles
  import opened Cookies
  import Refile
  import HeaderView

  /** `keywords.get(keywords.indexOf(current) + 1) || ''`: a keyword that is not in
      the list is followed by the first one, and so is the absent keyword, since
      `indexOf(undefined)` is -1 on a list of strings. */
  function NextKeyword(keywords: seq<string>, current: Option<string>): (r: string)
  {
    var k := (if current.Some? then Refile.IndexOfValue(keywords, current.value) else -1) + 1;
    if k < |keywords| then keywords[k] else ""
  }

  /** `todoKeywordSetForKeyword(todoKeywordSets, currentTodoState)`: no set lists
      `undefined`, so a header without a keyword gets the first set. */
  function CurrentSet(sets: seq<KeywordSet>, current: Option<string>): (r: KeywordSet)
    requires |sets| > 0
    ensures current.None? ==> r == sets[0]
  {
    match current
    case None => sets[0]
    case Some(k) => TodoKeywordSetForKeyword(sets, k)
  }

  /** `headerId || state.get('selectedHeaderId')`. */
  function ExistingHeaderId(file: OrgFile, headerId: Option<Id>): Option<Id>
  {
    if Truthy(headerId) then headerId else file.selectedHeaderId
  }

  /** The index `setIn(['headers', headerIndex, ...])` writes to: `findIndex`
      answers -1 for a missing id and Immutable reads -1 as the last header. */
  function TargetIndex(headers: seq<Header>, id: Id): (t: nat)
    requires |headers| > 0
    ensures t < |headers|
  {
    var i := IndexOfHeaderWithId(headers, id);
    if i >= 0 then i else |headers| - 1
  }

  /** The file after the keyword of the header at `t` became `keyword`. */
  function WithKeyword(file: OrgFile, t: nat, keyword: string): (r: OrgFile)
    requires t < |file.headers|
  {
    var h := file.headers[t];
    file.(headers := file.headers[t := h.(titleLine := h.titleLine.(todoKeyword := Some(keyword)))])
  }

  /** The advanced keyword of the header at `t`. */
  function AdvancedKeyword(file: OrgFile, t: nat): string
    requires WellFormed(file) && t < |file.headers|
  {
    var current := file.headers[t].titleLine.todoKeyword;
    NextKeyword(CurrentSet(file.todoKeywordSets, current).keywords, current)
  }

  /** The state `advanceTodoState` produces, without repeaters and logging: with
      neither a header id nor a selection the state is returned as it is. */
  function Advanced(file: OrgFile, headerId: Option<Id>, toRaw: ToRaw): OrgFile
    requires WellFormed(file)
    requires Truthy(ExistingHeaderId(file, headerId)) ==> |file.headers| > 0
  {
    var id := ExistingHeaderId(file, headerId);
    if !Truthy(id) then file
    else
      var t := TargetIndex(file.headers, id.value);
      var updated := WithKeyword(file, t, AdvancedKeyword(file, t));
      WithKeywordChangesOnlyKeyword(file, t, AdvancedKeyword(file, t));
      var p := ParentIdOfHeaderWithId(updated.headers, id);
      if Truthy(p) then CookiesUpdated(updated, p, toRaw) else updated
  }

  /** `advanceTodoState`. */
  method AdvanceTodoState(file: OrgFile, headerId: Option<Id>, toRaw: ToRaw) returns (r: OrgFile)
    requires WellFormed(file)
    requires Truthy(ExistingHeaderId(file, headerId)) ==> |file.headers| > 0
    ensures r == Advanced(file, headerId, toRaw)
    ensures !Truthy(headerId) && !Truthy(file.selectedHeaderId) ==> r == file
  {
    var existingHeaderId := ExistingHeaderId(file, headerId);
    if !Truthy(existingHeaderId) {
      return file;
    }
    var headerIndex := TargetIndex(file.headers, existingHeaderId.value);
    var currentTodoState := file.headers[headerIndex].titleLine.todoKeyword;
    var currentTodoSet := CurrentSet(file.todoKeywordSets, currentTodoState);
    var newTodoState := NextKeyword(currentTodoSet.keywords, currentTodoState);
    var state := WithKeyword(file, headerIndex, newTodoState);
    WithKeywordChangesOnlyKeyword(file, headerIndex, newTodoState);
    r := UpdateCookiesOfParentOfHeaderWithId(state, existingHeaderId, toRaw);
  }

  /** Within a set of distinct keywords (the empty keyword a doubled or trailing
      space in a `#+TODO:` line leaves included), each one is followed by the
      next and the last one by ''; the absent keyword is followed by the first
      one, and so is '' when the set does not list it. */
  lemma NextKeywordSteps(keywords: seq<string>, k: nat)
    requires forall a, b :: 0 <= a < b < |keywords| ==> keywords[a] != keywords[b]
    requires k < |keywords|
    ensures NextKeyword(keywords, Some(keywords[k])) == if k + 1 < |keywords| then keywords[k + 1] else ""
    ensures NextKeyword(keywords, None) == keywords[0]
    ensures "" !in keywords ==> NextKeyword(keywords, Some("")) == keywords[0]
  {
    Refile.IndexOfValueFromFinds(keywords, keywords[k], 0, k);
    if "" !in keywords {
      Refile.IndexOfValueFromMisses(keywords, "", 0);
    }
  }

  /** Advancing `n` times from `current`. */
  function AdvanceTimes(keywords: seq<string>, current: Option<string>, n: nat): Option<string>
    decreases n
  {
    if n == 0 then current else Some(NextKeyword(keywords, AdvanceTimes(keywords, current, n - 1)))
  }

  /** Repeated advancing from a header without a keyword walks through the whole
      set in order and, one step after the last keyword, reaches ''; when the set
      does not list '', the next step is the first keyword again: a full cycle. */
  lemma {:induction false} AdvanceCycles(keywords: seq<string>, n: nat)
    requires forall a, b :: 0 <= a < b < |keywords| ==> keywords[a] != keywords[b]
    requires n <= |keywords| + 1
    ensures AdvanceTimes(keywords, None, n) ==
      if n == 0 then None else if n <= |keywords| then Some(keywords[n - 1]) else Some("")
    ensures n == |keywords| + 1 && |keywords| > 0 && "" !in keywords ==>
      NextKeyword(keywords, AdvanceTimes(keywords, None, n)) == keywords[0]
    decreases n
  {
    if n > 0 {
      AdvanceCycles(keywords, n - 1);
      if n == 1 {
        if |keywords| > 0 {
          NextKeywordSteps(keywords, 0);
        }
      } else {
        NextKeywordSteps(keywords, n - 2);
      }
    }
    if n == |keywords| + 1 && |keywords| > 0 && "" !in keywords {
      NextKeywordSteps(keywords, 0);
    }
  }

  /** The keyword change touches only the target header's keyword: its title,
      tags and everything else of the file stay as they were. */
  lemma WithKeywordChangesOnlyKeyword(file: OrgFile, t: nat, keyword: string)
    requires t < |file.headers|
    ensures var r := WithKeyword(file, t, keyword);
      |r.headers| == |file.headers| && Ids(r.headers) == Ids(file.headers) &&
      Levels(r.headers) == Levels(file.headers) &&
      r.headers[t].titleLine.todoKeyword == Some(keyword) &&
      r.headers[t] == file.headers[t].(titleLine := r.headers[t].titleLine) &&
      r.headers[t].titleLine.title == file.headers[t].titleLine.title &&
      r.headers[t].titleLine.rawTitle == file.headers[t].titleLine.rawTitle &&
      r.headers[t].titleLine.tags == file.headers[t].titleLine.tags &&
      (forall k :: 0 <= k < |file.headers| && k != t ==> r.headers[k] == file.headers[k]) &&
      r.(headers := file.headers) == file
  {
    var r := WithKeyword(file, t, keyword);
    assert Ids(r.headers) == Ids(file.headers);
    assert Levels(r.headers) == Levels(file.headers);
  }

  /** After advancing, the header carries the next keyword of its set (the parent
      cookie update does not touch keywords); a header without a keyword gets
      the first keyword of the first set; headers other than the target and its
      parent are unchanged. */
  lemma AdvanceSetsNextKeyword(file: OrgFile, headerId: Option<Id>, toRaw: ToRaw)
    requires WellFormed(file)
    requires Truthy(ExistingHeaderId(file, headerId)) && |file.headers| > 0
    ensures var r := Advanced(file, headerId, toRaw);
      var id := ExistingHeaderId(file, headerId);
      var t := TargetIndex(file.headers, id.value);
      var parent := CookieTarget(file.headers, ParentIdOfHeaderWithId(file.headers, id));
      |r.headers| == |file.headers| && Ids(r.headers) == Ids(file.headers) &&
      r.headers[t].titleLine.todoKeyword == Some(AdvancedKeyword(file, t)) &&
      (file.headers[t].titleLine.todoKeyword.None? && |file.todoKeywordSets[0].keywords| > 0 ==>
        r.headers[t].titleLine.todoKeyword == Some(file.todoKeywordSets[0].keywords[0])) &&
      (forall k :: 0 <= k < |file.headers| && k != t && k != parent ==> r.headers[k] == file.headers[k])
  {
    var id := ExistingHeaderId(file, headerId);
    var t := TargetIndex(file.headers, id.value);
    var updated := WithKeyword(file, t, AdvancedKeyword(file, t));
    WithKeywordChangesOnlyKeyword(file, t, AdvancedKeyword(file, t));
    ParentIdSameIds(file.headers, updated.headers, id);
    var p := ParentIdOfHeaderWithId(updated.headers, id);
    if Truthy(p) {
      CookiesTouchOnlyTarget(updated, p, toRaw);
      IndexOfSameIds(file.headers, updated.headers, p.value);
    }
  }

  /** `findIndex` by id sees only the ids. */
  lemma IndexOfSameIds(a: seq<Header>, b: seq<Header>, id: Id)
    requires Ids(a) == Ids(b)
    ensures IndexOfHeaderWithId(a, id) == IndexOfHeaderWithId(b, id)
  {
    assert forall j :: 0 <= j < |a| ==> a[j].id == Ids(a)[j] == b[j].id;
    IndexOfHeaderWithIdFirst(a, id);
    IndexOfHeaderWithIdFirst(b, id);
  }

  /** The parent id sees only the ids and the nesting levels. */
  lemma ParentIdSameIds(a: seq<Header>, b: seq<Header>, id: Option<Id>)
    requires Ids(a) == Ids(b) && Levels(a) == Levels(b)
    ensures ParentIdOfHeaderWithId(a, id) == ParentIdOfHeaderWithId(b, id)
  {
    if id.Some? {
      IndexOfSameIds(a, b, id.value);
      var i := IndexOfHeaderWithId(a, id.value);
      if i >= 0 {
        HeaderView.LevelsDetermineTree(a, b, i);
        var p := ParentIndex(a, i);
        if p.Some? {
          assert a[p.value].id == Ids(a)[p.value] == b[p.value].id;
        }
      }
    }
  }
}
