/** Adding, removing and reordering headers (`addHeader`, `removeHeader`,
    `moveHeaderUp`, `moveHeaderDown` of `src/reducers/org.js`). */
module HeaderEdit {
  import opened Wrappers
  import opened Strings
  import opened OrgTypes
  import opened OrgUtils
  import opened OrgFiles
  import opened Cookies
  import SeqOps
  import ParseOrg

  // ---------------------------------------------------------------------------
  // removeHeader
  // ---------------------------------------------------------------------------

  /** Cutting a run out of a list with unique ids leaves unique ids. */
  lemma UniqueIdsOfCut(headers: seq<Header>, i: nat, e: nat)
    requires i <= e <= |headers| && UniqueIds(headers)
    ensures UniqueIds(headers[..i] + headers[e..])
  {
    var r := headers[..i] + headers[e..];
    forall a, b | 0 <= a < b < |r|
      ensures Ids(r)[a] != Ids(r)[b]
    {
      var a' := if a < i then a else a + e - i;
      var b' := if b < i then b else b + e - i;
      assert r[a] == headers[a'] && r[b] == headers[b'];
      assert Ids(headers)[a'] != Ids(headers)[b'];
    }
  }

  /** The `delete(headerIndex)` loop: `count` deletions at the same index take out
      the `count` entries starting there and keep the others in order. */
  method DeleteRun(headers: seq<Header>, i: nat, count: nat) returns (r: seq<Header>)
    requires i + count <= |headers|
    ensures r == headers[..i] + headers[i + count..]
  {
    r := headers;
    var j := 0;
    while j < count
      invariant 0 <= j <= count
      invariant r == headers[..i] + headers[i + j..]
    {
      r := SeqOps.Remove(r, i);
      assert r == headers[..i] + headers[i + j + 1..];
      j := j + 1;
    }
  }

  /** The file after `removeHeader` of the header at `i`: its subtree is cut out,
      narrowing on it is dropped, and the cookies of its (surviving) parent are
      recounted when that parent has a truthy id. */
  function RemovedAt(file: OrgFile, i: nat, toRaw: ToRaw): (r: OrgFile)
    requires WellFormed(file) && i < |file.headers|
    ensures WellFormed(r)
  {
    var headers := file.headers;
    var parent := ParentIndex(headers, i);
    var cut := CutSubtree(file, i);
    if parent.Some? && headers[parent.value].id != 0 then
      CookiesUpdated(cut, Some(headers[parent.value].id), toRaw)
    else cut
  }

  /** The file with the subtree at `i` cut out, and narrowing dropped when it was
      on the removed header. */
  function CutSubtree(file: OrgFile, i: nat): (r: OrgFile)
    requires WellFormed(file) && i < |file.headers|
    ensures WellFormed(r)
  {
    var headers := file.headers;
    var e := SubtreeEnd(headers, i);
    UniqueIdsOfCut(headers, i, e);
    var narrowed := if file.narrowedHeaderId == Some(headers[i].id) then None else file.narrowedHeaderId;
    file.(headers := headers[..i] + headers[e..], narrowedHeaderId := narrowed)
  }

  /** `removeHeader` deletes exactly the header and its subheaders, keeps all other
      headers in order, and no longer has the header's id. */
  lemma RemovedAtShape(file: OrgFile, i: nat, toRaw: ToRaw)
    requires WellFormed(file) && i < |file.headers|
    ensures var e := SubtreeEnd(file.headers, i);
      var r := RemovedAt(file, i, toRaw);
      |r.headers| == |file.headers| - (e - i) &&
      Ids(r.headers) == Ids(file.headers[..i]) + Ids(file.headers[e..]) &&
      (forall k :: 0 <= k < |r.headers| ==> r.headers[k].id != file.headers[i].id) &&
      r.narrowedHeaderId != Some(file.headers[i].id) &&
      (forall k :: 0 <= k < |r.headers| && (ParentIndex(file.headers, i).None? || k != ParentIndex(file.headers, i).value) ==>
         r.headers[k] == (file.headers[..i] + file.headers[e..])[k])
  {
    var headers := file.headers;
    var e := SubtreeEnd(headers, i);
    UniqueIdsOfCut(headers, i, e);
    var cut := headers[..i] + headers[e..];
    assert Ids(cut) == Ids(headers[..i]) + Ids(headers[e..]);
    forall k | 0 <= k < |cut|
      ensures cut[k].id != headers[i].id
    {
      var k' := if k < i then k else k + e - i;
      assert cut[k] == headers[k'] && k' != i;
      assert Ids(headers)[k'] != Ids(headers)[i];
    }
    var parent := ParentIndex(headers, i);
    if parent.Some? && headers[parent.value].id != 0 {
      var narrowed := if file.narrowedHeaderId == Some(headers[i].id) then None else file.narrowedHeaderId;
      var f := file.(headers := cut, narrowedHeaderId := narrowed);
      IndexOfUniqueId(cut, parent.value);
      CookiesTouchOnlyTarget(f, Some(headers[parent.value].id), toRaw);
    }
  }

  /** `removeHeader`. */
  method RemoveHeader(file: OrgFile, id: Id, toRaw: ToRaw) returns (r: OrgFile)
    requires WellFormed(file) && IndexOfHeaderWithId(file.headers, id) >= 0
    ensures r == RemovedAt(file, IndexOfHeaderWithId(file.headers, id), toRaw)
  {
    var headers := file.headers;
    var headerIndex := IndexOfHeaderWithId(headers, id);
    var subheaders := SubheadersOfHeaderWithId(headers, id);
    NumSubheadersOfIndex(headers, headerIndex);
    var numHeadersToRemove := 1 + |subheaders|;
    var parentHeaderId := ParentIdOfHeaderWithId(headers, Some(id));
    headers := DeleteRun(headers, headerIndex, numHeadersToRemove);
    r := file.(headers := headers);
    if file.narrowedHeaderId == Some(id) {
      r := r.(narrowedHeaderId := None);
    }
    assert r == CutSubtree(file, headerIndex);
    if Truthy(parentHeaderId) {
      r := UpdateCookiesOfHeaderWithId(r, parentHeaderId, toRaw);
    }
  }

  // ---------------------------------------------------------------------------
  // moveHeaderUp / moveHeaderDown
  // ---------------------------------------------------------------------------

  /** The block `s[h..e]` moved in front of the block `s[p..h]`. */
  function SwapBlocks<T>(s: seq<T>, p: nat, h: nat, e: nat): (r: seq<T>)
    requires p <= h <= e <= |s|
    ensures |r| == |s|
  {
    s[..p] + s[h..e] + s[p..h] + s[e..]
  }

  /** Entry `k` of the swapped list is entry `Source(k, ...)` of the original. */
  lemma SwapBlocksAt<T>(s: seq<T>, p: nat, h: nat, e: nat)
    requires p <= h <= e <= |s|
    ensures forall k :: 0 <= k < |s| ==> SwapBlocks(s, p, h, e)[k] == s[Source(k, p, h, e)]
  {
  }

  /** Swapping two blocks is a permutation. */
  lemma SwapBlocksPermutes<T>(s: seq<T>, p: nat, h: nat, e: nat)
    requires p <= h <= e <= |s|
    ensures multiset(SwapBlocks(s, p, h, e)) == multiset(s)
  {
    assert s == s[..p] + s[p..h] + s[h..e] + s[e..];
  }

  /** The state of the move loop after `j` turns: the last `j` entries of the
      block `h..h + n + 1` already stand in front of the block `p..h`. */
  ghost predicate SwappedUpTo<T>(s: seq<T>, p: nat, h: nat, n: nat, j: nat, r: seq<T>)
    requires p <= h && h + n < |s| && j <= n + 1
  {
    r == s[..p] + s[h + n + 1 - j..h + n + 1] + s[p..h] + s[h..h + n + 1 - j] + s[h + n + 1..]
  }

  /** Before the first turn nothing has moved. */
  lemma SwapStart<T>(s: seq<T>, p: nat, h: nat, n: nat)
    requires p <= h && h + n < |s|
    ensures SwappedUpTo(s, p, h, n, 0, s)
  {
    assert s == s[..p] + s[p..h] + s[h..h + n + 1] + s[h + n + 1..];
  }

  /** After the last turn the whole block stands in front. */
  lemma SwapDone<T>(s: seq<T>, p: nat, h: nat, n: nat, r: seq<T>)
    requires p <= h && h + n < |s| && SwappedUpTo(s, p, h, n, n + 1, r)
    ensures r == SwapBlocks(s, p, h, h + n + 1)
  {
    assert s[h..h] == [];
  }

  /** One turn of the move loop: the last entry not yet moved goes to the front of
      the moved part, in front of the block being jumped over. */
  lemma SwapStep<T>(s: seq<T>, p: nat, h: nat, n: nat, j: nat, r: seq<T>)
    requires p <= h && h + n < |s| && j < n + 1 && SwappedUpTo(s, p, h, n, j, r)
    ensures |r| == |s| && r[h + n] == s[h + n - j]
    ensures SwappedUpTo(s, p, h, n, j + 1, SeqOps.Remove(SeqOps.Insert(r, p, r[h + n]), h + n + 1))
  {
    var y := s[h + n - j];
    assert s[h..h + n + 1 - j] == s[h..h + n - j] + [y];
    assert [y] + s[h + n + 1 - j..h + n + 1] == s[h + n - j..h + n + 1];
    MoveLastForward(s[..p], s[h + n + 1 - j..h + n + 1], s[p..h], s[h..h + n - j], y, s[h + n + 1..]);
  }

  /** Inserting the last entry of `B + [y]` at the front of `A` and deleting its
      old copy. */
  lemma MoveLastForward<T>(P: seq<T>, A: seq<T>, X: seq<T>, B: seq<T>, y: T, Z: seq<T>)
    ensures var r := P + A + X + (B + [y]) + Z;
      var k := |P| + |A| + |X| + |B|;
      k < |r| && r[k] == y &&
      SeqOps.Remove(SeqOps.Insert(r, |P|, y), k + 1) == P + ([y] + A) + X + B + Z
  {
    var r := P + A + X + (B + [y]) + Z;
    var k := |P| + |A| + |X| + |B|;
    assert r[..|P|] == P && r[|P|..] == A + X + (B + [y]) + Z;
    var ins := SeqOps.Insert(r, |P|, y);
    assert ins == P + [y] + (A + X + (B + [y]) + Z);
    assert ins[..k + 1] == P + ([y] + A) + X + B;
    assert ins[k + 2..] == Z;
  }

  /** The move loop of `moveHeaderUp` / `moveHeaderDown`: `n + 1` times, the entry
      at `h + n` is inserted at `p` and its old copy deleted. */
  method SwapAdjacentBlocks(headers: seq<Header>, p: nat, h: nat, n: nat) returns (r: seq<Header>)
    requires p <= h && h + n < |headers|
    ensures r == SwapBlocks(headers, p, h, h + n + 1)
  {
    r := headers;
    var j := 0;
    SwapStart(headers, p, h, n);
    while j < n + 1
      invariant 0 <= j <= n + 1 && SwappedUpTo(headers, p, h, n, j, r)
    {
      SwapStep(headers, p, h, n, j, r);
      r := SeqOps.Insert(r, p, r[h + n]);
      r := SeqOps.Remove(r, h + n + 1);
      j := j + 1;
    }
    SwapDone(headers, p, h, n, r);
  }

  /** `moveHeaderUp` by index: without a previous sibling nothing moves; otherwise
      the header's subtree and the previous sibling's subtree change places. */
  function MoveUpAt(headers: seq<Header>, i: nat): (r: seq<Header>)
    requires i < |headers|
    ensures |r| == |headers|
  {
    match PreviousSiblingIndex(headers, i)
    case None => headers
    case Some(p) => SwapBlocks(headers, p, i, SubtreeEnd(headers, i))
  }

  /** `moveHeaderDown` by index: nothing moves when the entry after the subtree is
      missing or shallower; otherwise it is the next sibling and the two subtrees
      change places. */
  function MoveDownAt(headers: seq<Header>, i: nat): (r: seq<Header>)
    requires i < |headers|
    ensures |r| == |headers|
  {
    var e := SubtreeEnd(headers, i);
    if e < |headers| && headers[e].nestingLevel == headers[i].nestingLevel then
      SwapBlocks(headers, i, e, SubtreeEnd(headers, e))
    else headers
  }

  /** Moving a header up or down is a permutation of the headers. */
  lemma MovesPermute(headers: seq<Header>, i: nat)
    requires i < |headers|
    ensures multiset(MoveUpAt(headers, i)) == multiset(headers)
    ensures multiset(MoveDownAt(headers, i)) == multiset(headers)
  {
    if PreviousSiblingIndex(headers, i).Some? {
      SwapBlocksPermutes(headers, PreviousSiblingIndex(headers, i).value, i, SubtreeEnd(headers, i));
    }
    var e := SubtreeEnd(headers, i);
    if e < |headers| && headers[e].nestingLevel == headers[i].nestingLevel {
      SwapBlocksPermutes(headers, i, e, SubtreeEnd(headers, e));
    }
  }

  /** The header before `i` on the same level, reached through deeper headers
      only, ends its subtree at `i`. */
  lemma PreviousSiblingSubtree(headers: seq<Header>, i: nat)
    requires i < |headers| && PreviousSiblingIndex(headers, i).Some?
    ensures SubtreeEnd(headers, PreviousSiblingIndex(headers, i).value) == i
  {
    var p := PreviousSiblingIndex(headers, i).value;
    RunEndAt(headers, p + 1, headers[p].nestingLevel, i);
  }

  /** Moving a header up and then moving it (now at its former sibling's place)
      down restores the list. */
  lemma MoveUpThenDown(headers: seq<Header>, i: nat)
    requires i < |headers| && PreviousSiblingIndex(headers, i).Some?
    ensures var p := PreviousSiblingIndex(headers, i).value;
      p < |MoveUpAt(headers, i)| && MoveDownAt(MoveUpAt(headers, i), p) == headers
  {
    var p := PreviousSiblingIndex(headers, i).value;
    var e := SubtreeEnd(headers, i);
    PreviousSiblingSubtree(headers, i);
    MovedUpSwapsBack(headers, p, i, e);
    SwapBack(headers, p, i, e);
  }

  /** After a move up, moving the header (now at `p`) down swaps the same two
      blocks again. */
  lemma MovedUpSwapsBack(headers: seq<Header>, p: nat, i: nat, e: nat)
    requires p < i < e <= |headers|
    requires SubtreeEnd(headers, p) == i && SubtreeEnd(headers, i) == e
    requires headers[p].nestingLevel == headers[i].nestingLevel
    ensures var r := SwapBlocks(headers, p, i, e);
      p < |r| && MoveDownAt(r, p) == SwapBlocks(r, p, p + (e - i), e)
  {
    SwappedSiblings(headers, p, i, e);
  }

  /** After two adjacent sibling subtrees `p..i` and `i..e` change places, the
      moved header's subtree ends where the other one begins, and that one ends
      at `e`. */
  lemma SwappedSiblings(headers: seq<Header>, p: nat, i: nat, e: nat)
    requires p < i < e <= |headers|
    requires SubtreeEnd(headers, p) == i && SubtreeEnd(headers, i) == e
    requires headers[p].nestingLevel == headers[i].nestingLevel
    ensures var r := SwapBlocks(headers, p, i, e);
      var m := p + (e - i);
      m < |r| && SubtreeEnd(r, p) == m && r[m].nestingLevel == r[p].nestingLevel &&
      SubtreeEnd(r, m) == e
  {
    SwappedFront(headers, p, i, e);
    SwappedBack(headers, p, i, e);
  }

  /** The moved subtree, now at `p`, ends where the other one begins. */
  lemma SwappedFront(headers: seq<Header>, p: nat, i: nat, e: nat)
    requires p < i < e <= |headers|
    requires SubtreeEnd(headers, i) == e
    requires headers[p].nestingLevel == headers[i].nestingLevel
    ensures var r := SwapBlocks(headers, p, i, e);
      var m := p + (e - i);
      m < |r| && r[p] == headers[i] && r[m] == headers[p] && SubtreeEnd(r, p) == m
  {
    var r := SwapBlocks(headers, p, i, e);
    var m := p + (e - i);
    SubtreeEndDeeper(headers, i);
    SwapBlocksAt(headers, p, i, e);
    assert r[p] == headers[i] && r[m] == headers[p];
    forall k | p + 1 <= k < m
      ensures r[k].nestingLevel > r[p].nestingLevel
    {
      assert r[k] == headers[k - p + i];
    }
    RunEndAt(r, p + 1, r[p].nestingLevel, m);
  }

  /** The subtree jumped over, now at `p + (e - i)`, still ends at `e`. */
  lemma SwappedBack(headers: seq<Header>, p: nat, i: nat, e: nat)
    requires p < i < e <= |headers|
    requires SubtreeEnd(headers, p) == i && SubtreeEnd(headers, i) == e
    requires headers[p].nestingLevel == headers[i].nestingLevel
    ensures var r := SwapBlocks(headers, p, i, e);
      var m := p + (e - i);
      m < |r| && SubtreeEnd(r, m) == e
  {
    var r := SwapBlocks(headers, p, i, e);
    var m := p + (e - i);
    SubtreeEndDeeper(headers, p);
    SwapBlocksAt(headers, p, i, e);
    assert r[m] == headers[p];
    forall k | m + 1 <= k < e
      ensures r[k].nestingLevel > r[m].nestingLevel
    {
      assert r[k] == headers[k - (e - i)];
    }
    assert e == |r| || r[e] == headers[e];
    RunEndAt(r, m + 1, r[m].nestingLevel, e);
  }

  /** Swapping the two blocks back restores the list. */
  lemma SwapBack<T>(s: seq<T>, p: nat, h: nat, e: nat)
    requires p <= h <= e <= |s|
    ensures SwapBlocks(SwapBlocks(s, p, h, e), p, p + (e - h), e) == s
  {
    var P, A, B, Z := s[..p], s[p..h], s[h..e], s[e..];
    var r := P + B + A + Z;
    assert r[..p] == P && r[p..p + |B|] == B && r[p + |B|..e] == A && r[e..] == Z;
    assert s == P + A + B + Z;
  }

  /** Moving a header down past its next sibling (whose subtree is `e..f`) and
      then moving it (now at `i + (f - e)`) up restores the list. */
  lemma MoveDownThenUp(headers: seq<Header>, i: nat, e: nat, f: nat)
    requires i < |headers| && e == SubtreeEnd(headers, i)
    requires e < |headers| && headers[e].nestingLevel == headers[i].nestingLevel
    requires f == SubtreeEnd(headers, e)
    ensures i + (f - e) < |headers| && MoveUpAt(MoveDownAt(headers, i), i + (f - e)) == headers
  {
    MoveDownSwaps(headers, i, e, f);
    MovedDownSwapsBack(headers, i, e, f);
    SwapBack(headers, i, e, f);
  }

  /** A move down with a next sibling swaps the two subtrees. */
  lemma MoveDownSwaps(headers: seq<Header>, i: nat, e: nat, f: nat)
    requires i < e < f <= |headers|
    requires SubtreeEnd(headers, i) == e && SubtreeEnd(headers, e) == f
    requires headers[e].nestingLevel == headers[i].nestingLevel
    ensures MoveDownAt(headers, i) == SwapBlocks(headers, i, e, f)
  {
  }

  /** After a move down, the header's previous sibling is the one it jumped over
      and its subtree still ends at `f`, so moving it up swaps the same two blocks
      again. */
  lemma MovedDownSwapsBack(headers: seq<Header>, i: nat, e: nat, f: nat)
    requires i < e < f <= |headers|
    requires SubtreeEnd(headers, i) == e && SubtreeEnd(headers, e) == f
    requires headers[e].nestingLevel == headers[i].nestingLevel
    ensures var r := SwapBlocks(headers, i, e, f);
      var m := i + (f - e);
      m < |r| && PreviousSiblingIndex(r, m) == Some(i) && SubtreeEnd(r, m) == f
  {
    var r := SwapBlocks(headers, i, e, f);
    SwappedSiblings(headers, i, e, f);
    PreviousSiblingAfterSubtree(r, i);
  }

  /** A header right after a subtree and on the subtree root's level has that
      root as its previous sibling. */
  lemma PreviousSiblingAfterSubtree(headers: seq<Header>, i: nat)
    requires i < |headers|
    requires var m := SubtreeEnd(headers, i);
      m < |headers| && headers[m].nestingLevel == headers[i].nestingLevel
    ensures PreviousSiblingIndex(headers, SubtreeEnd(headers, i)) == Some(i)
  {
    var m := SubtreeEnd(headers, i);
    SubtreeEndDeeper(headers, i);
    LastBeforeAt(headers, m, headers[m].nestingLevel + 1, i);
  }

  /** `RunEnd` is the first index not deeper than the bound. */
  lemma {:induction false} RunEndAt(headers: seq<Header>, from: nat, level: int, e: nat)
    requires from <= e <= |headers|
    requires forall k :: from <= k < e ==> headers[k].nestingLevel > level
    requires e == |headers| || headers[e].nestingLevel <= level
    ensures RunEnd(headers, from, level) == e
    decreases e - from
  {
    if from < e {
      RunEndAt(headers, from + 1, level, e);
    }
  }

  /** `LastBefore` is the last index before `i` shallower than the bound. */
  lemma LastBeforeAt(headers: seq<Header>, i: nat, bound: int, p: nat)
    requires p < i <= |headers| && headers[p].nestingLevel < bound
    requires forall k :: p < k < i ==> headers[k].nestingLevel >= bound
    ensures LastBefore(headers, i, bound) == Some(p)
  {
  }

  /** Reordering keeps the ids, as a whole, unique. */
  lemma SwapBlocksKeepsUniqueIds(headers: seq<Header>, p: nat, h: nat, e: nat)
    requires p <= h <= e <= |headers| && UniqueIds(headers)
    ensures UniqueIds(SwapBlocks(headers, p, h, e))
  {
    var r := SwapBlocks(headers, p, h, e);
    SwapBlocksAt(headers, p, h, e);
    forall a, b | 0 <= a < b < |r|
      ensures Ids(r)[a] != Ids(r)[b]
    {
      var a' := Source(a, p, h, e);
      var b' := Source(b, p, h, e);
      assert r[a] == headers[a'] && r[b] == headers[b'];
      assert a' != b';
      if a' < b' {
        assert Ids(headers)[a'] != Ids(headers)[b'];
      } else {
        assert Ids(headers)[b'] != Ids(headers)[a'];
      }
    }
  }

  /** Where the entry at `k` of `SwapBlocks(s, p, h, e)` comes from. */
  function Source(k: nat, p: nat, h: nat, e: nat): (k': nat)
    requires p <= h <= e
    ensures (k < p || k >= e) ==> k' == k
    ensures p <= k < e ==> p <= k' < e
  {
    if k < p || k >= e then k
    else if k < p + (e - h) then k - p + h
    else k - (e - h)
  }

  /** Moving a header up or down keeps the ids unique. */
  lemma MovesKeepUniqueIds(headers: seq<Header>, i: nat)
    requires UniqueIds(headers) && i < |headers|
    ensures UniqueIds(MoveUpAt(headers, i)) && UniqueIds(MoveDownAt(headers, i))
  {
    var p := PreviousSiblingIndex(headers, i);
    if p.Some? {
      SwapBlocksKeepsUniqueIds(headers, p.value, i, SubtreeEnd(headers, i));
    }
    var e := SubtreeEnd(headers, i);
    if e < |headers| {
      SwapBlocksKeepsUniqueIds(headers, i, e, SubtreeEnd(headers, e));
    }
  }

  /** `moveHeaderUp`. */
  method MoveHeaderUp(file: OrgFile, id: Id) returns (r: OrgFile)
    requires WellFormed(file) && IndexOfHeaderWithId(file.headers, id) >= 0
    ensures r == file.(headers := MoveUpAt(file.headers, IndexOfHeaderWithId(file.headers, id)))
    ensures WellFormed(r)
  {
    var headers := file.headers;
    var headerIndex := IndexOfHeaderWithId(headers, id);
    var previousSiblingIndex := PreviousSiblingIndex(headers, headerIndex);
    if previousSiblingIndex.None? {
      return file;
    }
    var subheaders := SubheadersOfHeaderWithId(headers, id);
    NumSubheadersOfIndex(headers, headerIndex);
    MovesKeepUniqueIds(file.headers, headerIndex);
    headers := SwapAdjacentBlocks(headers, previousSiblingIndex.value, headerIndex, |subheaders|);
    r := file.(headers := headers);
  }

  /** `moveHeaderDown`. */
  method MoveHeaderDown(file: OrgFile, id: Id) returns (r: OrgFile)
    requires WellFormed(file) && IndexOfHeaderWithId(file.headers, id) >= 0
    ensures r == file.(headers := MoveDownAt(file.headers, IndexOfHeaderWithId(file.headers, id)))
    ensures WellFormed(r)
  {
    var headers := file.headers;
    var headerIndex := IndexOfHeaderWithId(headers, id);
    var subheaders := SubheadersOfHeaderWithId(headers, id);
    NumSubheadersOfIndex(headers, headerIndex);
    var nextSiblingIndex := headerIndex + |subheaders| + 1;
    assert nextSiblingIndex == SubtreeEnd(headers, headerIndex);
    if nextSiblingIndex >= |headers| || headers[nextSiblingIndex].nestingLevel < headers[headerIndex].nestingLevel {
      return file;
    }
    var nextSiblingSubheaders := SubheadersOfHeaderWithId(headers, headers[nextSiblingIndex].id);
    NumSubheadersOfIndex(headers, nextSiblingIndex);
    ghost var f := SubtreeEnd(file.headers, nextSiblingIndex);
    assert nextSiblingIndex + |nextSiblingSubheaders| + 1 == f;
    MoveDownSwaps(file.headers, headerIndex, nextSiblingIndex, f);
    MovesKeepUniqueIds(file.headers, headerIndex);
    headers := SwapAdjacentBlocks(headers, headerIndex, nextSiblingIndex, |nextSiblingSubheaders|);
    r := file.(headers := headers);
  }

  // ---------------------------------------------------------------------------
  // addHeader
  // ---------------------------------------------------------------------------

  /** The header `addHeader` creates: on the header's level, with the title line
      `keyword + ' '` when the header has a keyword, and empty otherwise. */
  function AddedHeader(file: OrgFile, i: nat, newId: Id): Header
    requires i < |file.headers|
  {
    var todoKeyword := file.headers[i].titleLine.Keyword();
    ParseOrg.NewHeaderWithTitle(ParseOrg.ParseTitleLine, if todoKeyword != "" then todoKeyword + " " else "",
                                file.headers[i].nestingLevel, file.todoKeywordSets, newId)
  }

  /** The file after `addHeader` on the header at `i`: the new header goes right
      after the header's subtree, and narrowing on the header is dropped. */
  function AddedAt(file: OrgFile, i: nat, newId: Id): (r: OrgFile)
    requires i < |file.headers|
  {
    var e := SubtreeEnd(file.headers, i);
    var narrowed := if file.narrowedHeaderId == Some(file.headers[i].id) then None else file.narrowedHeaderId;
    file.(headers := SeqOps.Insert(file.headers, e, AddedHeader(file, i, newId)), narrowedHeaderId := narrowed)
  }

  /** `addHeader` grows the list by exactly one: the new header right after the
      subtree, everything before and after it unchanged and in order. */
  lemma AddedAtShape(file: OrgFile, i: nat, newId: Id)
    requires i < |file.headers|
    ensures var e := SubtreeEnd(file.headers, i);
      var r := AddedAt(file, i, newId).headers;
      |r| == |file.headers| + 1 && r[e] == AddedHeader(file, i, newId) &&
      r[..e] == file.headers[..e] && r[e + 1..] == file.headers[e..]
    ensures AddedAt(file, i, newId).narrowedHeaderId ==
      (if file.narrowedHeaderId == Some(file.headers[i].id) then None else file.narrowedHeaderId)
  {
    SeqOps.InsertShape(file.headers, SubtreeEnd(file.headers, i), AddedHeader(file, i, newId));
  }

  /** A fresh id keeps the ids unique. */
  lemma AddedAtWellFormed(file: OrgFile, i: nat, newId: Id)
    requires WellFormed(file) && i < |file.headers|
    requires forall k :: 0 <= k < |file.headers| ==> file.headers[k].id != newId
    ensures WellFormed(AddedAt(file, i, newId))
  {
    var e := SubtreeEnd(file.headers, i);
    var h := AddedHeader(file, i, newId);
    assert h.id == newId;
    UniqueIdsOfInsert(file.headers, e, h);
  }

  /** Inserting a header whose id is not yet used keeps the ids unique. */
  lemma UniqueIdsOfInsert(headers: seq<Header>, e: nat, h: Header)
    requires UniqueIds(headers) && e <= |headers|
    requires forall k :: 0 <= k < |headers| ==> headers[k].id != h.id
    ensures UniqueIds(SeqOps.Insert(headers, e, h))
  {
    var r := SeqOps.Insert(headers, e, h);
    assert r == headers[..e] + [h] + headers[e..];
    forall a, b | 0 <= a < b < |r|
      ensures Ids(r)[a] != Ids(r)[b]
    {
      if a != e && b != e {
        var a' := if a < e then a else a - 1;
        var b' := if b < e then b else b - 1;
        assert r[a] == headers[a'] && r[b] == headers[b'];
        assert Ids(headers)[a'] != Ids(headers)[b'];
      } else if a == e {
        assert r[b] == headers[b - 1];
      } else {
        assert r[a] == headers[a];
      }
    }
  }

  /** A keyword free of spaces followed by a space starts with another keyword
      and a space only when the two are the same. */
  lemma SpacedPrefix(kw: string, k: string)
    requires ' ' !in kw && StartsWith(kw + " ", k + " ")
    ensures k == kw
  {
    assert (kw + " ")[..|k| + 1] == k + " ";
    assert (kw + " ")[|k|] == ' ';
    assert |k| == |kw|;
    assert kw == (kw + " ")[..|k|];
    assert k == (k + " ")[..|k|];
  }

  /** The new header has an empty raw title and no tags; it carries the header's
      keyword whenever that keyword belongs to the file's keyword sets and no
      keyword contains a space (as for keywords read from `#+TODO:` lines), and
      no keyword at all (`undefined`) when the header's keyword is absent or
      empty. */
  lemma AddedHeaderTitle(file: OrgFile, i: nat, newId: Id)
    requires WellFormed(file) && i < |file.headers|
    ensures var h := AddedHeader(file, i, newId);
      h.id == newId && h.nestingLevel == file.headers[i].nestingLevel && !h.isOpened &&
      h.rawDescription == ""
    ensures var h := AddedHeader(file, i, newId);
      var kw := file.headers[i].titleLine.Keyword();
      var keywords := ParseOrg.AllKeywords(file.todoKeywordSets);
      (kw == "" || kw in keywords) && (forall k :: k in keywords ==> ' ' !in k) ==>
        h.titleLine.todoKeyword == (if kw != "" then Some(kw) else None) &&
        h.titleLine.rawTitle == "" && h.titleLine.tags == []
  {
    var kw := file.headers[i].titleLine.Keyword();
    var keywords := ParseOrg.AllKeywords(file.todoKeywordSets);
    var line := if kw != "" then kw + " " else "";
    var first := ParseOrg.FirstKeyword(line, keywords);
    var todoKeyword := first.GetOr("");
    if (kw == "" || kw in keywords) && (forall k :: k in keywords ==> ' ' !in k) {
      if kw != "" {
        var j :| 0 <= j < |keywords| && keywords[j] == kw;
        assert StartsWith(line, keywords[j] + " ");
        assert first.Some?;
        SpacedPrefix(kw, first.value);
        assert ParseOrg.AfterKeyword(line, todoKeyword) == "";
      }
      assert ParseOrg.ExtractTagsAsWritten("") == ("", []);
    }
  }

  /** `addHeader`, drawing the new id from the counter. */
  method AddHeader(file: OrgFile, id: Id, counter: ParseOrg.IdCounter) returns (r: OrgFile)
    requires WellFormed(file) && IndexOfHeaderWithId(file.headers, id) >= 0
    modifies counter
    ensures r == AddedAt(file, IndexOfHeaderWithId(file.headers, id), old(counter.nextId))
    ensures counter.nextId == old(counter.nextId) + 1
  {
    var headerIndex := IndexOfHeaderWithId(file.headers, id);
    var header := file.headers[headerIndex];
    var subheaders := SubheadersOfHeaderWithId(file.headers, id);
    NumSubheadersOfIndex(file.headers, headerIndex);
    var todoKeyword := header.titleLine.Keyword();
    ghost var newId := counter.nextId;
    var newHeader := ParseOrg.NewHeader(counter, ParseOrg.ParseTitleLine,
                                        if todoKeyword != "" then todoKeyword + " " else "",
                                        header.nestingLevel, file.todoKeywordSets);
    assert newHeader == AddedHeader(file, headerIndex, newId);
    assert headerIndex + |subheaders| + 1 == SubtreeEnd(file.headers, headerIndex);
    var narrowed := if file.narrowedHeaderId == Some(id) then None else file.narrowedHeaderId;
    r := file.(headers := SeqOps.Insert(file.headers, headerIndex + |subheaders| + 1, newHeader),
               narrowedHeaderId := narrowed);
  }
}
