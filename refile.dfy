/** `refileSubtree` (`src/reducers/org.js`): a header and its subtree are moved,
    one entry at a time, to just below a target header, in the same file or in
    another one, and re-indented to sit one level deeper than the target. */
module Refile {
  import opened Wrappers
  import opened OrgTypes
  import opened OrgUtils
  import opened OrgFiles
  import opened Cookies
  import SeqOps
  import HeaderEdit

  // ---------------------------------------------------------------------------
  // Ids under rearrangement
  // ---------------------------------------------------------------------------

  predicate Distinct(ids: seq<Id>)
  {
    forall a, b :: 0 <= a < b < |ids| ==> ids[a] != ids[b]
  }

  lemma {:induction false} DistinctCount(ids: seq<Id>, x: Id)
    requires Distinct(ids)
    ensures multiset(ids)[x] <= 1
    decreases |ids|
  {
    if |ids| > 0 {
      var rest := ids[1..];
      assert ids == [ids[0]] + rest;
      assert Distinct(rest) by {
        forall a, b | 0 <= a < b < |rest| ensures rest[a] != rest[b] {
          assert rest[a] == ids[a + 1] && rest[b] == ids[b + 1];
        }
      }
      DistinctCount(rest, x);
      if ids[0] == x {
        assert forall j :: 0 <= j < |rest| ==> rest[j] == ids[j + 1] != ids[0];
        assert x !in rest;
      }
    }
  }

  /** A rearrangement of distinct ids is distinct. */
  lemma DistinctByMultiset(a: seq<Id>, b: seq<Id>)
    requires Distinct(a) && multiset(a) == multiset(b)
    ensures Distinct(b)
  {
    forall p, q | 0 <= p < q < |b|
      ensures b[p] != b[q]
    {
      DistinctCount(a, b[p]);
      assert b == b[..p] + [b[p]] + b[p + 1..q] + [b[q]] + b[q + 1..];
    }
  }

  lemma DistinctAppend(a: seq<Id>, b: seq<Id>)
    requires Distinct(a) && Distinct(b)
    requires forall j :: 0 <= j < |b| ==> b[j] !in a
    ensures Distinct(a + b)
  {
  }

  lemma IdsAppend(a: seq<Header>, b: seq<Header>)
    ensures Ids(a + b) == Ids(a) + Ids(b)
  {
    assert forall k :: 0 <= k < |a + b| ==> Ids(a + b)[k] == (Ids(a) + Ids(b))[k];
  }

  lemma IdsSlice(h: seq<Header>, lo: nat, hi: nat)
    requires lo <= hi <= |h|
    ensures Ids(h[lo..hi]) == Ids(h)[lo..hi]
  {
    assert forall k :: 0 <= k < hi - lo ==> Ids(h[lo..hi])[k] == Ids(h)[lo..hi][k];
  }

  /** `List.indexOf(value)`: the first entry equal to the value (Immutable
      compares headers by value), -1 when there is none. */
  function IndexOfValue<T(==)>(s: seq<T>, x: T): (r: int)
    ensures -1 <= r < |s|
  {
    IndexOfValueFrom(s, x, 0)
  }

  function IndexOfValueFrom<T(==)>(s: seq<T>, x: T, from: nat): (r: int)
    requires from <= |s|
    ensures -1 <= r < |s|
    decreases |s| - from
  {
    if from == |s| then -1
    else if s[from] == x then from
    else IndexOfValueFrom(s, x, from + 1)
  }

  /** The scan stops at the first equal entry at or after `from`... */
  lemma {:induction false} IndexOfValueFromFinds<T>(s: seq<T>, x: T, from: nat, p: nat)
    requires from <= p < |s| && s[p] == x
    requires forall q :: from <= q < p ==> s[q] != x
    ensures IndexOfValueFrom(s, x, from) == p
    decreases p - from
  {
    if from < p {
      IndexOfValueFromFinds(s, x, from + 1, p);
    }
  }

  /** ... and finds nothing when there is no equal entry. */
  lemma {:induction false} IndexOfValueFromMisses<T>(s: seq<T>, x: T, from: nat)
    requires from <= |s| && forall q :: from <= q < |s| ==> s[q] != x
    ensures IndexOfValueFrom(s, x, from) == -1
    decreases |s| - from
  {
    if from < |s| {
      IndexOfValueFromMisses(s, x, from + 1);
    }
  }

  /** With unique ids, a header's value is found at its own position. */
  lemma IndexOfValueUnique(s: seq<Header>, p: nat)
    requires UniqueIds(s) && p < |s|
    ensures IndexOfValue(s, s[p]) == p
  {
    forall q | 0 <= q < p
      ensures s[q] != s[p]
    {
      assert Ids(s)[q] != Ids(s)[p];
    }
    IndexOfValueFromFinds(s, s[p], 0, p);
  }

  // ---------------------------------------------------------------------------
  // The two move helpers
  // ---------------------------------------------------------------------------

  /** `moveItemInFile`: delete at `fromIndex`, then insert right after the entry
      that was at `toIndex`, found again by value. Indices follow Immutable: a
      negative one counts from the end, a `get` outside the list yields
      `undefined`, which `indexOf` does not find, so the item then goes first. */
  function MoveItemInFile(fromList: seq<Header>, fromIndex: int, toIndex: int, item: Header): (r: seq<Header>)
    ensures 0 <= fromIndex < |fromList| ==> |r| == |fromList|
  {
    var p := if toIndex < 0 then |fromList| + toIndex else toIndex;
    var list := SeqOps.DeleteAt(fromList, fromIndex);
    var targetIndex := if 0 <= p < |fromList| then IndexOfValue(list, fromList[p]) else -1;
    SeqOps.Insert(list, targetIndex + 1, item)
  }

  /** `moveItemAcrossFiles`: delete from one list, insert into the other right
      after the entry at `toIndex`. */
  function MoveItemAcrossFiles(fromList: seq<Header>, fromIndex: int, toList: seq<Header>, toIndex: int,
                               item: Header): (r: (seq<Header>, seq<Header>))
    ensures 0 <= fromIndex < |fromList| ==> |r.0| == |fromList| - 1
    ensures |r.1| == |toList| + 1
  {
    var p := if toIndex < 0 then |toList| + toIndex else toIndex;
    var targetIndex := if 0 <= p < |toList| then IndexOfValue(toList, toList[p]) else -1;
    (SeqOps.DeleteAt(fromList, fromIndex), SeqOps.Insert(toList, targetIndex + 1, item))
  }

  /** The `moveItem` the reducer picks: `moveItemInFile` when source and target
      are one file, whose two results are then the same list. */
  function MoveItem(inFile: bool, fromList: seq<Header>, fromIndex: int, toList: seq<Header>, toIndex: int,
                    item: Header): (r: (seq<Header>, seq<Header>))
    ensures inFile ==> r.0 == r.1
    ensures 0 <= fromIndex < |fromList| && inFile ==> |r.0| == |fromList|
    ensures 0 <= fromIndex < |fromList| && !inFile ==> |r.0| == |fromList| - 1 && |r.1| == |toList| + 1
  {
    if inFile then
      var list := MoveItemInFile(fromList, fromIndex, toIndex, item);
      (list, list)
    else
      MoveItemAcrossFiles(fromList, fromIndex, toList, toIndex, item)
  }

  /** With both indices inside the list, `moveItemInFile` deletes the entry and
      inserts the item after the target found again by value. */
  lemma InFileInRange(fromList: seq<Header>, fromIndex: nat, toIndex: nat, item: Header)
    requires fromIndex < |fromList| && toIndex < |fromList|
    ensures var list := SeqOps.Remove(fromList, fromIndex);
      MoveItemInFile(fromList, fromIndex, toIndex, item) ==
      SeqOps.Insert(list, IndexOfValue(list, fromList[toIndex]) + 1, item)
  {
  }

  /** With both indices inside the lists, `moveItemAcrossFiles` deletes the
      entry from the source and inserts the item right after the target. */
  lemma AcrossInRange(fromList: seq<Header>, fromIndex: nat, toList: seq<Header>, toIndex: nat, item: Header)
    requires fromIndex < |fromList| && toIndex < |toList|
    ensures MoveItemAcrossFiles(fromList, fromIndex, toList, toIndex, item) ==
      (SeqOps.Remove(fromList, fromIndex), SeqOps.Insert(toList, IndexOfValue(toList, toList[toIndex]) + 1, item))
  {
  }

  // ---------------------------------------------------------------------------
  // The moved block
  // ---------------------------------------------------------------------------

  /** Entry `j` of the subtree at `i`, re-indented below a target on level `tgt`:
      the subtree root lands on `tgt + 1`, its descendants keep their depth below it. */
  function Reindented(headers: seq<Header>, i: nat, j: nat, tgt: nat): Header
    requires i < |headers| && i + j < SubtreeEnd(headers, i)
  {
    SubtreeEndDeeper(headers, i);
    headers[i + j].(nestingLevel := headers[i + j].nestingLevel - headers[i].nestingLevel + tgt + 1)
  }

  /** The first `k` entries of the subtree at `i`, re-indented below level `tgt`. */
  function Block(headers: seq<Header>, i: nat, k: nat, tgt: nat): (r: seq<Header>)
    requires i < |headers| && i + k <= SubtreeEnd(headers, i)
    ensures |r| == k
  {
    seq(k, j requires 0 <= j < k => Reindented(headers, i, j, tgt))
  }

  /** The block keeps the subtree's ids and relative depths, with its root one
      level below `tgt`. */
  lemma BlockEntries(headers: seq<Header>, i: nat, k: nat, tgt: nat)
    requires i < |headers| && i + k <= SubtreeEnd(headers, i)
    ensures var b := Block(headers, i, k, tgt);
      Ids(b) == Ids(headers[i..i + k]) &&
      forall j :: 0 <= j < k ==>
        b[j].id == headers[i + j].id &&
        b[j].nestingLevel == headers[i + j].nestingLevel - headers[i].nestingLevel + tgt + 1
  {
    var b := Block(headers, i, k, tgt);
    forall j | 0 <= j < k
      ensures b[j].id == headers[i + j].id
      ensures b[j].nestingLevel == headers[i + j].nestingLevel - headers[i].nestingLevel + tgt + 1
    {
      assert b[j] == Reindented(headers, i, j, tgt);
    }
    assert forall j :: 0 <= j < k ==> Ids(b)[j] == Ids(headers[i..i + k])[j];
  }

  /** The ids in the block are distinct when the file's are. */
  lemma BlockDistinct(headers: seq<Header>, i: nat, k: nat, tgt: nat)
    requires UniqueIds(headers) && i < |headers| && i + k <= SubtreeEnd(headers, i)
    ensures Distinct(Ids(Block(headers, i, k, tgt)))
  {
    var b := Block(headers, i, k, tgt);
    BlockEntries(headers, i, k, tgt);
    forall p, q | 0 <= p < q < k
      ensures Ids(b)[p] != Ids(b)[q]
    {
      assert Ids(headers)[i + p] != Ids(headers)[i + q];
    }
  }

  lemma BlockSnoc(headers: seq<Header>, i: nat, k: nat, tgt: nat)
    requires i < |headers| && i + k < SubtreeEnd(headers, i)
    ensures Block(headers, i, k + 1, tgt) ==
            Block(headers, i, k, tgt) + [Reindented(headers, i, k, tgt)]
  {
    var b := Block(headers, i, k, tgt);
    var x := Reindented(headers, i, k, tgt);
    assert forall j :: 0 <= j < k ==> Block(headers, i, k + 1, tgt)[j] == b[j];
  }

  /** Taking the entry at `f` out of a list. */
  lemma RemoveAt<T>(s: seq<T>, f: nat, a: seq<T>, y: T, c: seq<T>)
    requires s == a + ([y] + c) && f == |a|
    ensures SeqOps.Remove(s, f) == a + c
  {
    assert s[..f] == a;
    assert s[f + 1..] == c;
  }

  /** Putting an entry after a prefix `a` and a block `b`. */
  lemma InsertAfterBlock<T>(s: seq<T>, w: nat, a: seq<T>, b: seq<T>, c: seq<T>, x: T)
    requires s == a + b + c && w == |a| + |b|
    ensures SeqOps.Insert(s, w, x) == a + (b + [x]) + c
  {
    assert s[..w] == a + b;
    assert s[w..] == c;
  }

  /** A target that lies outside the subtree at `i`. */
  predicate OutsideSubtree(headers: seq<Header>, i: nat, t: nat)
    requires i < |headers|
  {
    t < |headers| && (t < i || SubtreeEnd(headers, i) <= t)
  }

  // ---------------------------------------------------------------------------
  // Within one file
  // ---------------------------------------------------------------------------

  /** The file after `k` of the subtree's entries have been moved: they sit,
      re-indented, right after the target, and the rest keeps its order. */
  function InFileStage(headers: seq<Header>, i: nat, t: nat, k: nat): (r: seq<Header>)
    requires i < |headers| && OutsideSubtree(headers, i, t) && i + k <= SubtreeEnd(headers, i)
    ensures |r| == |headers|
  {
    if t < i then StageBefore(headers, i, t, k) else StageAfter(headers, i, t, k)
  }

  /** ... when the target comes before the subtree, ... */
  function StageBefore(headers: seq<Header>, i: nat, t: nat, k: nat): (r: seq<Header>)
    requires t < i < |headers| && i + k <= SubtreeEnd(headers, i)
    ensures |r| == |headers|
  {
    headers[..t + 1] + Block(headers, i, k, headers[t].nestingLevel) + headers[t + 1..i] + headers[i + k..]
  }

  /** ... and when it comes after it. */
  function StageAfter(headers: seq<Header>, i: nat, t: nat, k: nat): (r: seq<Header>)
    requires i < |headers| && i + k <= SubtreeEnd(headers, i) <= t < |headers|
    ensures |r| == |headers|
  {
    headers[..i] + headers[i + k..t + 1] + Block(headers, i, k, headers[t].nestingLevel) + headers[t + 1..]
  }

  lemma StageBeforeStart(headers: seq<Header>, i: nat, t: nat)
    requires t < i < |headers|
    ensures StageBefore(headers, i, t, 0) == headers
  {
    assert Block(headers, i, 0, headers[t].nestingLevel) == [];
    assert headers == headers[..t + 1] + headers[t + 1..i] + headers[i..];
  }

  lemma StageAfterStart(headers: seq<Header>, i: nat, t: nat)
    requires i < |headers| && SubtreeEnd(headers, i) <= t < |headers|
    ensures StageAfter(headers, i, t, 0) == headers
  {
    assert Block(headers, i, 0, headers[t].nestingLevel) == [];
    assert headers == headers[..i] + headers[i..t + 1] + headers[t + 1..];
  }

  /** Four segments in a new order keep their ids' multiset. */
  lemma IdsOfFour(p: seq<Header>, q: seq<Header>, r: seq<Header>, s: seq<Header>)
    ensures multiset(Ids(p + q + r + s)) == multiset(Ids(p)) + multiset(Ids(q)) + multiset(Ids(r)) + multiset(Ids(s))
  {
    IdsAppend(p + q + r, s);
    IdsAppend(p + q, r);
    IdsAppend(p, q);
  }

  /** Swapping two middle segments, one of them replaced by a segment with the
      same ids, keeps the multiset of ids. */
  lemma SwapKeepsIds(p: seq<Header>, m: seq<Header>, sub: seq<Header>, b: seq<Header>, q: seq<Header>)
    requires Ids(b) == Ids(sub)
    ensures multiset(Ids(p + b + m + q)) == multiset(Ids(p + m + sub + q))
    ensures multiset(Ids(p + m + b + q)) == multiset(Ids(p + sub + m + q))
  {
    IdsOfFour(p, b, m, q);
    IdsOfFour(p, m, sub, q);
    IdsOfFour(p, m, b, q);
    IdsOfFour(p, sub, m, q);
  }

  /** Every stage holds the same ids as the file. */
  lemma InFileStageMultiset(headers: seq<Header>, i: nat, t: nat, k: nat)
    requires i < |headers| && OutsideSubtree(headers, i, t) && i + k <= SubtreeEnd(headers, i)
    ensures multiset(Ids(InFileStage(headers, i, t, k))) == multiset(Ids(headers))
  {
    var b := Block(headers, i, k, headers[t].nestingLevel);
    BlockEntries(headers, i, k, headers[t].nestingLevel);
    var sub := headers[i..i + k];
    if t < i {
      var p, m, q := headers[..t + 1], headers[t + 1..i], headers[i + k..];
      assert headers == p + m + sub + q;
      SwapKeepsIds(p, m, sub, b, q);
    } else {
      var p, m, q := headers[..i], headers[i + k..t + 1], headers[t + 1..];
      assert headers == p + sub + m + q;
      SwapKeepsIds(p, m, sub, b, q);
    }
  }

  lemma UniqueIdsByMultiset(a: seq<Header>, b: seq<Header>)
    requires UniqueIds(a) && multiset(Ids(a)) == multiset(Ids(b))
    ensures UniqueIds(b)
  {
    DistinctByMultiset(Ids(a), Ids(b));
  }

  /** ... so they stay unique. */
  lemma InFileStageIds(headers: seq<Header>, i: nat, t: nat, k: nat)
    requires UniqueIds(headers) && i < |headers| && OutsideSubtree(headers, i, t)
    requires i + k <= SubtreeEnd(headers, i)
    ensures multiset(Ids(InFileStage(headers, i, t, k))) == multiset(Ids(headers))
    ensures UniqueIds(InFileStage(headers, i, t, k))
  {
    InFileStageMultiset(headers, i, t, k);
    UniqueIdsByMultiset(headers, InFileStage(headers, i, t, k));
  }

  lemma UniqueIdsOfRemove(headers: seq<Header>, p: nat)
    requires UniqueIds(headers) && p < |headers|
    ensures UniqueIds(SeqOps.Remove(headers, p))
  {
    HeaderEdit.UniqueIdsOfCut(headers, p, p + 1);
  }

  /** With unique ids, the entry at `toIndex` is found again by value after the
      deletion at `fromIndex`: one place earlier when it came after it. */
  lemma IndexAfterRemove(fromList: seq<Header>, fromIndex: nat, toIndex: nat)
    requires UniqueIds(fromList) && fromIndex < |fromList| && toIndex < |fromList| && fromIndex != toIndex
    ensures IndexOfValue(SeqOps.Remove(fromList, fromIndex), fromList[toIndex]) ==
            if fromIndex < toIndex then toIndex - 1 else toIndex
  {
    var list := SeqOps.Remove(fromList, fromIndex);
    var v := if fromIndex < toIndex then toIndex - 1 else toIndex;
    assert list[v] == fromList[toIndex];
    UniqueIdsOfRemove(fromList, fromIndex);
    IndexOfValueUnique(list, v);
  }

  /** The stages around one pass when the target comes before the subtree. */
  lemma StageShapeBefore(headers: seq<Header>, i: nat, t: nat, k: nat)
    requires t < i < |headers| && i + k < SubtreeEnd(headers, i)
    ensures var stage := StageBefore(headers, i, t, k);
      stage[i + k] == headers[i + k] && stage[t] == headers[t]
    ensures var list := SeqOps.Remove(StageBefore(headers, i, t, k), i + k);
      list[..t + k + 1] + [Reindented(headers, i, k, headers[t].nestingLevel)] + list[t + k + 1..] ==
      StageBefore(headers, i, t, k + 1)
  {
    var tgt := headers[t].nestingLevel;
    var b := Block(headers, i, k, tgt);
    var x := Reindented(headers, i, k, tgt);
    var p, m, y, q := headers[..t + 1], headers[t + 1..i], headers[i + k], headers[i + k + 1..];
    assert headers[i + k..] == [y] + q;
    assert StageBefore(headers, i, t, k) == p + b + m + ([y] + q);
    BlockSnoc(headers, i, k, tgt);
    ShapeToBlockEnd(StageBefore(headers, i, t, k), t, i + k, t + k + 1, p, b, m, y, q, x,
                    StageBefore(headers, i, t, k + 1));
  }

  lemma ShapeToBlockEnd<T>(stage: seq<T>, w: nat, f: nat, v: nat, a: seq<T>, b: seq<T>, m: seq<T>, y: T, q: seq<T>, x: T,
                           next: seq<T>)
    requires stage == a + b + m + ([y] + q) && f == |a| + |b| + |m| && v == |a| + |b| && |a| == w + 1
    requires next == a + (b + [x]) + m + q
    ensures stage[f] == y && stage[w] == a[w]
    ensures SeqOps.Remove(stage, f)[..v] + [x] + SeqOps.Remove(stage, f)[v..] == next
  {
    var list := SeqOps.Remove(stage, f);
    assert list == (a + b) + (m + q);
    assert list[..v] == a + b;
    assert list[v..] == m + q;
  }

  /** The stages around one pass when the target comes after the subtree. */
  lemma StageShapeAfter(headers: seq<Header>, i: nat, t: nat, k: nat)
    requires i < |headers| && SubtreeEnd(headers, i) <= t < |headers| && i + k < SubtreeEnd(headers, i)
    ensures var stage := StageAfter(headers, i, t, k);
      var x := Reindented(headers, i, k, headers[t].nestingLevel);
      var list := SeqOps.Remove(stage, i);
      stage[i] == headers[i + k] && stage[t - k] == headers[t] &&
      list[..t] + [x] + list[t..] == StageAfter(headers, i, t, k + 1)
  {
    var tgt := headers[t].nestingLevel;
    var b := Block(headers, i, k, tgt);
    var x := Reindented(headers, i, k, tgt);
    var p, y, m, q := headers[..i], headers[i + k], headers[i + k + 1..t + 1], headers[t + 1..];
    assert headers[i + k..t + 1] == [y] + m;
    assert StageAfter(headers, i, t, k) == p + ([y] + m) + b + q;
    BlockSnoc(headers, i, k, tgt);
    ShapeFromFront(StageAfter(headers, i, t, k), i, t - k, t, p, y, m, b, q, x, StageAfter(headers, i, t, k + 1));
  }

  lemma ShapeFromFront<T>(stage: seq<T>, f: nat, u: nat, v: nat, a: seq<T>, y: T, m: seq<T>, b: seq<T>, q: seq<T>, x: T,
                          next: seq<T>)
    requires stage == a + ([y] + m) + b + q && f == |a| && u == |a| + |m| && v == |a| + |m| + |b| && |m| > 0
    requires next == a + m + (b + [x]) + q
    ensures stage[f] == y && stage[u] == m[|m| - 1]
    ensures SeqOps.Remove(stage, f)[..v] + [x] + SeqOps.Remove(stage, f)[v..] == next
  {
    var list := SeqOps.Remove(stage, f);
    assert list == (a + m + b) + q;
    assert list[..v] == a + m + b;
    assert list[v..] == q;
  }

  lemma StageBeforeUnique(headers: seq<Header>, i: nat, t: nat, k: nat)
    requires UniqueIds(headers) && t < i < |headers| && i + k <= SubtreeEnd(headers, i)
    ensures UniqueIds(StageBefore(headers, i, t, k))
  {
    InFileStageIds(headers, i, t, k);
  }

  lemma StageAfterUnique(headers: seq<Header>, i: nat, t: nat, k: nat)
    requires UniqueIds(headers) && i < |headers| && i + k <= SubtreeEnd(headers, i) <= t < |headers|
    ensures UniqueIds(StageAfter(headers, i, t, k))
  {
    InFileStageIds(headers, i, t, k);
  }

  /** With unique ids, two entries are found by id at their own positions. */
  lemma FindBoth(stage: seq<Header>, u: nat, f: nat, target: Header, moved: Header)
    requires UniqueIds(stage) && u < |stage| && f < |stage| && stage[u] == target && stage[f] == moved
    ensures IndexOfHeaderWithId(stage, target.id) == u && IndexOfHeaderWithId(stage, moved.id) == f
  {
    IndexOfUniqueId(stage, u);
    IndexOfUniqueId(stage, f);
  }

  /** Where the loop finds the entry to move and the target, at stage `k`, when
      the target comes before the subtree ... */
  lemma PositionsBefore(headers: seq<Header>, i: nat, t: nat, k: nat)
    requires UniqueIds(headers) && t < i < |headers| && i + k < SubtreeEnd(headers, i)
    ensures IndexOfHeaderWithId(StageBefore(headers, i, t, k), headers[i + k].id) == i + k
    ensures IndexOfHeaderWithId(StageBefore(headers, i, t, k), headers[t].id) == t
  {
    var p, m, y, q := headers[..t + 1], headers[t + 1..i], headers[i + k], headers[i + k + 1..];
    var b := Block(headers, i, k, headers[t].nestingLevel);
    assert headers[i + k..] == [y] + q;
    var stage := StageBefore(headers, i, t, k);
    assert stage == p + b + m + ([y] + q);
    assert p[t] == headers[t];
    assert stage[t] == headers[t];
    assert stage[i + k] == y;
    StageBeforeUnique(headers, i, t, k);
    FindBoth(stage, t, i + k, headers[t], y);
  }

  /** ... and when it comes after it. */
  lemma PositionsAfter(headers: seq<Header>, i: nat, t: nat, k: nat)
    requires UniqueIds(headers) && i < |headers| && i + k < SubtreeEnd(headers, i) <= t < |headers|
    ensures IndexOfHeaderWithId(StageAfter(headers, i, t, k), headers[i + k].id) == i
    ensures IndexOfHeaderWithId(StageAfter(headers, i, t, k), headers[t].id) == t - k
  {
    var p, y, m, q := headers[..i], headers[i + k], headers[i + k + 1..t + 1], headers[t + 1..];
    var b := Block(headers, i, k, headers[t].nestingLevel);
    assert headers[i + k..t + 1] == [y] + m;
    var stage := StageAfter(headers, i, t, k);
    assert stage == p + ([y] + m) + b + q;
    assert m[|m| - 1] == headers[t];
    assert stage[t - k] == headers[t];
    assert stage[i] == y;
    StageAfterUnique(headers, i, t, k);
    FindBoth(stage, t - k, i, headers[t], y);
  }

  /** Within one file, with unique ids: moving the entry at `f` after the one at
      `to` puts it at `w` in the list without it, `w` being `to` shifted past the
      deleted entry. */
  lemma MoveWithin(stage: seq<Header>, f: nat, to: nat, w: nat, x: Header, expected: seq<Header>)
    requires UniqueIds(stage) && f < |stage| && to < |stage| && f != to
    requires f < to ==> w == to
    requires to < f ==> w == to + 1
    requires SeqOps.Remove(stage, f)[..w] + [x] + SeqOps.Remove(stage, f)[w..] == expected
    ensures MoveItem(true, stage, f, stage, to, x) == (expected, expected)
  {
    InFileInRange(stage, f, to, x);
    IndexAfterRemove(stage, f, to);
  }

  /** One pass of the loop when the target comes before the subtree: the entry
      at `f = i + k` goes after the one at `to = t + k`. */
  lemma InFileStepBefore(headers: seq<Header>, i: nat, t: nat, k: nat, f: nat, to: nat)
    requires UniqueIds(headers) && t < i < |headers| && i + k < SubtreeEnd(headers, i)
    requires f == i + k && to == t + k
    ensures var x := Reindented(headers, i, k, headers[t].nestingLevel);
      var next := StageBefore(headers, i, t, k + 1);
      MoveItem(true, StageBefore(headers, i, t, k), f, StageBefore(headers, i, t, k), to, x) == (next, next)
  {
    var x := Reindented(headers, i, k, headers[t].nestingLevel);
    StageShapeBefore(headers, i, t, k);
    StageBeforeUnique(headers, i, t, k);
    MoveWithin(StageBefore(headers, i, t, k), f, to, t + k + 1, x, StageBefore(headers, i, t, k + 1));
  }

  /** One pass of the loop when the target comes after the subtree. */
  lemma InFileStepAfter(headers: seq<Header>, i: nat, t: nat, k: nat)
    requires UniqueIds(headers) && i < |headers| && i + k < SubtreeEnd(headers, i) <= t < |headers|
    ensures var x := Reindented(headers, i, k, headers[t].nestingLevel);
      var next := StageAfter(headers, i, t, k + 1);
      MoveItem(true, StageAfter(headers, i, t, k), i, StageAfter(headers, i, t, k), t, x) == (next, next)
  {
    var x := Reindented(headers, i, k, headers[t].nestingLevel);
    StageShapeAfter(headers, i, t, k);
    StageAfterUnique(headers, i, t, k);
    MoveWithin(StageAfter(headers, i, t, k), i, t, t, x, StageAfter(headers, i, t, k + 1));
  }

  /** The headers after refiling within one file. */
  function RefiledWithin(headers: seq<Header>, i: nat, t: nat): (r: seq<Header>)
    requires UniqueIds(headers) && i < |headers| && OutsideSubtree(headers, i, t)
    ensures |r| == |headers| && multiset(Ids(r)) == multiset(Ids(headers)) && UniqueIds(r)
  {
    InFileStageIds(headers, i, t, SubtreeEnd(headers, i) - i);
    InFileStage(headers, i, t, SubtreeEnd(headers, i) - i)
  }

  /** A header right after a shallower one has it as its parent. */
  lemma ParentIsPrevious(r: seq<Header>, u: nat)
    requires u + 1 < |r| && r[u].nestingLevel < r[u + 1].nestingLevel
    ensures ParentIndex(r, u + 1) == Some(u)
  {
  }

  /** Where the parts of a concatenation land. */
  lemma PartsOf<T>(r: seq<T>, a: seq<T>, b: seq<T>, c: seq<T>)
    requires r == a + b + c && |a| > 0
    ensures r[|a| - 1] == a[|a| - 1]
    ensures forall j :: 0 <= j < |b| ==> r[|a| + j] == b[j]
  {
  }

  /** A block whose root is one level below `rest[u]`, and whose other entries
      are deeper still, placed right after `rest[u]`: `rest[u]` is the root's
      parent and the block is the root's subtree. */
  lemma BlockPlaced(r: seq<Header>, rest: seq<Header>, u: nat, b: seq<Header>)
    requires u < |rest| && r == rest[..u + 1] + b + rest[u + 1..] && |b| > 0
    requires b[0].nestingLevel == rest[u].nestingLevel + 1
    requires forall j :: 0 < j < |b| ==> b[j].nestingLevel > b[0].nestingLevel
    ensures u + |b| < |r| && r[u] == rest[u] && r[u + 1] == b[0] && ParentIndex(r, u + 1) == Some(u)
    ensures forall j :: u + 1 < j <= u + |b| ==> r[j].nestingLevel > r[u + 1].nestingLevel
  {
    PartsOf(r, rest[..u + 1], b, rest[u + 1..]);
    ParentIsPrevious(r, u);
    forall j | u + 1 < j <= u + |b|
      ensures r[j].nestingLevel > r[u + 1].nestingLevel
    {
      assert r[u + 1 + (j - u - 1)] == b[j - u - 1];
    }
  }

  /** The whole subtree moved: its root lands one level below the target and the
      other entries stay deeper than the root. */
  lemma BlockRoot(headers: seq<Header>, i: nat, tgt: nat)
    requires i < |headers|
    ensures var n := SubtreeEnd(headers, i) - i;
      var b := Block(headers, i, n, tgt);
      b[0].id == headers[i].id && b[0].nestingLevel == tgt + 1 &&
      forall j :: 0 < j < n ==> b[j].nestingLevel > tgt + 1
  {
    SubtreeEndDeeper(headers, i);
    BlockEntries(headers, i, SubtreeEnd(headers, i) - i, tgt);
  }

  /** Refiling before the subtree: the block goes after the target in what is
      left once the subtree is cut out. */
  lemma PlacementBefore(headers: seq<Header>, i: nat, t: nat)
    requires UniqueIds(headers) && t < i < |headers|
    ensures var e := SubtreeEnd(headers, i);
      var rest := headers[..i] + headers[e..];
      RefiledWithin(headers, i, t) ==
        rest[..t + 1] + Block(headers, i, e - i, headers[t].nestingLevel) + rest[t + 1..]
  {
    var e := SubtreeEnd(headers, i);
    var rest := headers[..i] + headers[e..];
    assert RefiledWithin(headers, i, t) == StageBefore(headers, i, t, e - i);
    assert rest[..t + 1] == headers[..t + 1];
    assert rest[t + 1..] == headers[t + 1..i] + headers[e..];
  }

  /** Refiling after the subtree: the same, with the target shifted left by the
      size of the subtree. */
  lemma PlacementAfter(headers: seq<Header>, i: nat, t: nat)
    requires UniqueIds(headers) && i < |headers| && SubtreeEnd(headers, i) <= t < |headers|
    ensures var e := SubtreeEnd(headers, i);
      var rest := headers[..i] + headers[e..];
      var u := t - (e - i);
      RefiledWithin(headers, i, t) ==
        rest[..u + 1] + Block(headers, i, e - i, headers[t].nestingLevel) + rest[u + 1..]
  {
    var e := SubtreeEnd(headers, i);
    var rest := headers[..i] + headers[e..];
    var u := t - (e - i);
    assert RefiledWithin(headers, i, t) == StageAfter(headers, i, t, e - i);
    assert rest[..u + 1] == headers[..i] + headers[e..t + 1];
    assert rest[u + 1..] == headers[t + 1..];
  }

  /** Cutting the subtree out keeps the target, at the index `u` it has then. */
  lemma CutKeepsTarget(headers: seq<Header>, i: nat, t: nat)
    requires UniqueIds(headers) && i < |headers| && OutsideSubtree(headers, i, t)
    ensures var e := SubtreeEnd(headers, i);
      var rest := headers[..i] + headers[e..];
      var u := if t < i then t else t - (e - i);
      u < |rest| && rest[u] == headers[t] && IndexOfHeaderWithId(rest, headers[t].id) == u
  {
    var e := SubtreeEnd(headers, i);
    var rest := headers[..i] + headers[e..];
    var u := if t < i then t else t - (e - i);
    assert rest[u] == headers[t];
    HeaderEdit.UniqueIdsOfCut(headers, i, e);
    IndexOfUniqueId(rest, u);
  }

  /** What refiling within a file means: cut the subtree out, find the target in
      what is left, and put the re-indented subtree right after it. */
  lemma RefiledWithinShape(headers: seq<Header>, i: nat, t: nat)
    requires UniqueIds(headers) && i < |headers| && OutsideSubtree(headers, i, t)
    ensures var e := SubtreeEnd(headers, i);
      var rest := headers[..i] + headers[e..];
      var u := IndexOfHeaderWithId(rest, headers[t].id);
      var r := RefiledWithin(headers, i, t);
      0 <= u && u + (e - i) < |r| &&
      r == rest[..u + 1] + Block(headers, i, e - i, headers[t].nestingLevel) + rest[u + 1..]
  {
    CutKeepsTarget(headers, i, t);
    if t < i {
      PlacementBefore(headers, i, t);
    } else {
      PlacementAfter(headers, i, t);
    }
  }

  /** After refiling within a file the target is the parent of the subtree's root,
      one level above it, and the rest of the subtree stays below that root. */
  lemma RefiledWithinPlacement(headers: seq<Header>, i: nat, t: nat)
    requires UniqueIds(headers) && i < |headers| && OutsideSubtree(headers, i, t)
    ensures var e := SubtreeEnd(headers, i);
      var rest := headers[..i] + headers[e..];
      var u := IndexOfHeaderWithId(rest, headers[t].id);
      var r := RefiledWithin(headers, i, t);
      0 <= u && u + (e - i) < |r| && r[u] == headers[t] && r[u + 1].id == headers[i].id &&
      r[u + 1].nestingLevel == headers[t].nestingLevel + 1 && ParentIndex(r, u + 1) == Some(u) &&
      forall j :: u + 1 < j <= u + (e - i) ==> r[j].nestingLevel > r[u + 1].nestingLevel
  {
    var e := SubtreeEnd(headers, i);
    var tgt := headers[t].nestingLevel;
    var rest := headers[..i] + headers[e..];
    var u := IndexOfHeaderWithId(rest, headers[t].id);
    RefiledWithinShape(headers, i, t);
    CutKeepsTarget(headers, i, t);
    BlockRoot(headers, i, tgt);
    BlockPlaced(RefiledWithin(headers, i, t), rest, u, Block(headers, i, e - i, tgt));
  }

  // ---------------------------------------------------------------------------
  // Across two files
  // ---------------------------------------------------------------------------

  /** The two files after `k` of the subtree's entries have been moved. */
  function AcrossStage(headers: seq<Header>, i: nat, target: seq<Header>, t: nat, k: nat): (r: (seq<Header>, seq<Header>))
    requires i < |headers| && i + k <= SubtreeEnd(headers, i) && t < |target|
    ensures |r.0| == |headers| - k && |r.1| == |target| + k
  {
    (headers[..i] + headers[i + k..],
     target[..t + 1] + Block(headers, i, k, target[t].nestingLevel) + target[t + 1..])
  }

  lemma AcrossStageStart(headers: seq<Header>, i: nat, target: seq<Header>, t: nat)
    requires i < |headers| && t < |target|
    ensures AcrossStage(headers, i, target, t, 0) == (headers, target)
  {
    var s := AcrossStage(headers, i, target, t, 0);
    assert Block(headers, i, 0, target[t].nestingLevel) == [];
    assert s.0 == headers[..i] + headers[i..] == headers;
    assert s.1 == target[..t + 1] + target[t + 1..] == target;
  }

  /** No id of the subtree at `i` occurs in `target` (ids are drawn from one
      counter for all files). */
  predicate SubtreeIdsFresh(headers: seq<Header>, i: nat, target: seq<Header>)
    requires i < |headers|
  {
    forall j :: i <= j < SubtreeEnd(headers, i) ==> headers[j].id !in Ids(target)
  }

  /** Inserting a block of fresh, distinct ids keeps the ids unique. */
  lemma UniqueIdsOfBlockInsert(target: seq<Header>, p: nat, b: seq<Header>)
    requires UniqueIds(target) && p <= |target| && Distinct(Ids(b))
    requires forall j :: 0 <= j < |b| ==> b[j].id !in Ids(target)
    ensures UniqueIds(target[..p] + b + target[p..])
  {
    var r := target[..p] + b + target[p..];
    IdsAppend(target[..p] + b, target[p..]);
    IdsAppend(target[..p], b);
    assert target == target[..p] + target[p..];
    IdsAppend(target[..p], target[p..]);
    assert forall j :: 0 <= j < |Ids(b)| ==> Ids(b)[j] !in Ids(target);
    DistinctAppend(Ids(target), Ids(b));
    assert multiset(Ids(r)) == multiset(Ids(target) + Ids(b));
    DistinctByMultiset(Ids(target) + Ids(b), Ids(r));
  }

  lemma AcrossStageIds(headers: seq<Header>, i: nat, target: seq<Header>, t: nat, k: nat)
    requires UniqueIds(headers) && UniqueIds(target) && i < |headers| && t < |target|
    requires i + k <= SubtreeEnd(headers, i) && SubtreeIdsFresh(headers, i, target)
    ensures UniqueIds(AcrossStage(headers, i, target, t, k).0)
    ensures UniqueIds(AcrossStage(headers, i, target, t, k).1)
  {
    HeaderEdit.UniqueIdsOfCut(headers, i, i + k);
    var tgt := target[t].nestingLevel;
    var b := Block(headers, i, k, tgt);
    BlockDistinct(headers, i, k, tgt);
    BlockEntries(headers, i, k, tgt);
    forall j | 0 <= j < |b|
      ensures b[j].id !in Ids(target)
    {
      assert b[j].id == headers[i + j].id;
    }
    UniqueIdsOfBlockInsert(target, t + 1, b);
  }

  /** Where the loop finds the entry to move and the target, at stage `k`. */
  lemma AcrossPositions(headers: seq<Header>, i: nat, target: seq<Header>, t: nat, k: nat)
    requires UniqueIds(headers) && UniqueIds(target) && i < |headers| && t < |target|
    requires i + k < SubtreeEnd(headers, i) && SubtreeIdsFresh(headers, i, target)
    ensures var stage := AcrossStage(headers, i, target, t, k);
      IndexOfHeaderWithId(stage.0, headers[i + k].id) == i &&
      IndexOfHeaderWithId(stage.1, target[t].id) == t
  {
    var stage := AcrossStage(headers, i, target, t, k);
    var y := headers[i + k];
    assert headers[i + k..] == [y] + headers[i + k + 1..];
    assert stage.0 == headers[..i] + ([y] + headers[i + k + 1..]);
    assert stage.0[i] == y;
    assert target[..t + 1][t] == target[t];
    assert stage.1[t] == target[t];
    AcrossStageIds(headers, i, target, t, k);
    IndexOfUniqueId(stage.0, i);
    IndexOfUniqueId(stage.1, t);
  }

  /** One pass of the loop across files. */
  lemma AcrossStep(headers: seq<Header>, i: nat, target: seq<Header>, t: nat, k: nat)
    requires UniqueIds(headers) && UniqueIds(target) && i < |headers| && t < |target|
    requires i + k < SubtreeEnd(headers, i) && SubtreeIdsFresh(headers, i, target)
    ensures var stage := AcrossStage(headers, i, target, t, k);
      var x := Reindented(headers, i, k, target[t].nestingLevel);
      MoveItemAcrossFiles(stage.0, i, stage.1, t + k, x) == AcrossStage(headers, i, target, t, k + 1)
  {
    var tgt := target[t].nestingLevel;
    var stage := AcrossStage(headers, i, target, t, k);
    var b := Block(headers, i, k, tgt);
    var x := Reindented(headers, i, k, tgt);
    var y := headers[i + k];
    AcrossInRange(stage.0, i, stage.1, t + k, x);
    assert IndexOfValue(stage.1, stage.1[t + k]) == t + k by {
      AcrossStageIds(headers, i, target, t, k);
      IndexOfValueUnique(stage.1, t + k);
    }
    assert headers[i + k..] == [y] + headers[i + k + 1..];
    RemoveAt(stage.0, i, headers[..i], y, headers[i + k + 1..]);
    InsertAfterBlock(stage.1, t + k + 1, target[..t + 1], b, target[t + 1..], x);
    BlockSnoc(headers, i, k, tgt);
  }

  /** The two files after refiling into another file. */
  function RefiledAcross(headers: seq<Header>, i: nat, target: seq<Header>, t: nat): (r: (seq<Header>, seq<Header>))
    requires UniqueIds(headers) && UniqueIds(target) && i < |headers| && t < |target|
    requires SubtreeIdsFresh(headers, i, target)
    ensures UniqueIds(r.0) && UniqueIds(r.1)
    ensures |r.0| == |headers| - (SubtreeEnd(headers, i) - i) && |r.1| == |target| + (SubtreeEnd(headers, i) - i)
  {
    AcrossStageIds(headers, i, target, t, SubtreeEnd(headers, i) - i);
    AcrossStage(headers, i, target, t, SubtreeEnd(headers, i) - i)
  }

  /** Refiling into another file loses no id and duplicates none: the ids the
      source gives up are exactly the ones the target gains. */
  lemma AcrossKeepsIds(headers: seq<Header>, i: nat, target: seq<Header>, t: nat)
    requires UniqueIds(headers) && UniqueIds(target) && i < |headers| && t < |target|
    requires SubtreeIdsFresh(headers, i, target)
    ensures var r := RefiledAcross(headers, i, target, t);
      multiset(Ids(r.0)) + multiset(Ids(r.1)) == multiset(Ids(headers)) + multiset(Ids(target))
  {
    var e := SubtreeEnd(headers, i);
    var b := Block(headers, i, e - i, target[t].nestingLevel);
    BlockEntries(headers, i, e - i, target[t].nestingLevel);
    var r := RefiledAcross(headers, i, target, t);
    IdsOfFour(headers[..i], headers[i..e], [], headers[e..]);
    assert headers == headers[..i] + headers[i..e] + [] + headers[e..];
    IdsOfFour(headers[..i], [], [], headers[e..]);
    assert r.0 == headers[..i] + [] + [] + headers[e..];
    IdsOfFour(target[..t + 1], b, [], target[t + 1..]);
    assert r.1 == target[..t + 1] + b + [] + target[t + 1..];
    IdsOfFour(target[..t + 1], [], [], target[t + 1..]);
    assert target == target[..t + 1] + [] + [] + target[t + 1..];
  }

  /** Refiling into another file: no id of the subtree stays in the source, the
      target keeps its headers around the inserted block, and the block's root sits
      right below the target, one level deeper, with the rest of the block below it. */
  lemma AcrossPlacement(headers: seq<Header>, i: nat, target: seq<Header>, t: nat)
    requires UniqueIds(headers) && UniqueIds(target) && i < |headers| && t < |target|
    requires SubtreeIdsFresh(headers, i, target)
    ensures var e := SubtreeEnd(headers, i);
      var n := e - i;
      var r := RefiledAcross(headers, i, target, t);
      (forall j :: i <= j < e ==> headers[j].id !in Ids(r.0)) &&
      r.1[..t + 1] == target[..t + 1] && r.1[t + 1 + n..] == target[t + 1..] &&
      r.1[t + 1].id == headers[i].id && r.1[t + 1].nestingLevel == target[t].nestingLevel + 1 &&
      ParentIndex(r.1, t + 1) == Some(t) &&
      forall j :: t + 1 < j <= t + n ==> r.1[j].nestingLevel > r.1[t + 1].nestingLevel
  {
    var e := SubtreeEnd(headers, i);
    var n := e - i;
    var tgt := target[t].nestingLevel;
    var b := Block(headers, i, n, tgt);
    var r := RefiledAcross(headers, i, target, t);
    forall j | i <= j < e
      ensures headers[j].id !in Ids(r.0)
    {
      forall q | 0 <= q < |r.0|
        ensures Ids(r.0)[q] != headers[j].id
      {
        var q' := if q < i then q else q + n;
        assert r.0[q] == headers[q'];
        assert Ids(headers)[q'] != Ids(headers)[j];
      }
    }
    assert r.1 == target[..t + 1] + b + target[t + 1..];
    assert r.1[..t + 1] == target[..t + 1];
    assert r.1[t + 1 + n..] == target[t + 1..];
    BlockRoot(headers, i, tgt);
    BlockPlaced(r.1, target, t, b);
  }

  // ---------------------------------------------------------------------------
  // The reducer
  // ---------------------------------------------------------------------------

  /** What refiling within one file needs: both headers present and the target
      outside the moved subtree. */
  predicate WithinAllowed(file: OrgFile, sourceHeaderId: Id, targetHeaderId: Id)
  {
    WellFormed(file) &&
    IndexOfHeaderWithId(file.headers, sourceHeaderId) >= 0 &&
    IndexOfHeaderWithId(file.headers, targetHeaderId) >= 0 &&
    OutsideSubtree(file.headers, IndexOfHeaderWithId(file.headers, sourceHeaderId),
                   IndexOfHeaderWithId(file.headers, targetHeaderId))
  }

  /** What refiling into another file needs: both headers present, no id shared
      between the moved subtree and the target file, and a header left in the
      source (its cookie update reads the last remaining header). */
  predicate AcrossAllowed(source: OrgFile, target: OrgFile, sourceHeaderId: Id, targetHeaderId: Id)
  {
    WellFormed(source) && WellFormed(target) &&
    IndexOfHeaderWithId(source.headers, sourceHeaderId) >= 0 &&
    IndexOfHeaderWithId(target.headers, targetHeaderId) >= 0 &&
    SubtreeIdsFresh(source.headers, IndexOfHeaderWithId(source.headers, sourceHeaderId), target.headers) &&
    SubtreeEnd(source.headers, IndexOfHeaderWithId(source.headers, sourceHeaderId))
      - IndexOfHeaderWithId(source.headers, sourceHeaderId) < |source.headers|
  }

  /** What `refileSubtree` needs of its state: both files loaded and the
      conditions of the case at hand. */
  predicate RefileAllowed(files: map<string, OrgFile>, sourcePath: string, sourceHeaderId: Id,
                          targetPath: string, targetHeaderId: Id)
  {
    sourcePath in files && targetPath in files &&
    if sourcePath == targetPath then WithinAllowed(files[sourcePath], sourceHeaderId, targetHeaderId)
    else AcrossAllowed(files[sourcePath], files[targetPath], sourceHeaderId, targetHeaderId)
  }

  /** A file after refiling within it: the headers moved, then the cookies of the
      header with the source id and of the target recomputed. */
  function RefiledFileWithin(file: OrgFile, sourceHeaderId: Id, targetHeaderId: Id, toRaw: ToRaw): (r: OrgFile)
    requires WithinAllowed(file, sourceHeaderId, targetHeaderId)
    ensures WellFormed(r) && multiset(Ids(r.headers)) == multiset(Ids(file.headers))
  {
    var i := IndexOfHeaderWithId(file.headers, sourceHeaderId);
    var t := IndexOfHeaderWithId(file.headers, targetHeaderId);
    var moved := file.(headers := RefiledWithin(file.headers, i, t));
    var once := CookiesUpdated(moved, Some(sourceHeaderId), toRaw);
    CookiesUpdated(once, Some(targetHeaderId), toRaw)
  }

  /** Two files after refiling from the first into the second: the headers moved,
      then the cookies recomputed in each. */
  function RefiledFilesAcross(source: OrgFile, target: OrgFile, sourceHeaderId: Id, targetHeaderId: Id,
                              toRaw: ToRaw): (r: (OrgFile, OrgFile))
    requires AcrossAllowed(source, target, sourceHeaderId, targetHeaderId)
    ensures WellFormed(r.0) && WellFormed(r.1)
    ensures |r.0.headers| + |r.1.headers| == |source.headers| + |target.headers|
  {
    var i := IndexOfHeaderWithId(source.headers, sourceHeaderId);
    var t := IndexOfHeaderWithId(target.headers, targetHeaderId);
    var both := RefiledAcross(source.headers, i, target.headers, t);
    (CookiesUpdated(source.(headers := both.0), Some(sourceHeaderId), toRaw),
     CookiesUpdated(target.(headers := both.1), Some(targetHeaderId), toRaw))
  }

  /** The state after `refileSubtree` (the action carries no `headerId`, so its
      parent update is a no-op). */
  function Refiled(files: map<string, OrgFile>, sourcePath: string, sourceHeaderId: Id,
                   targetPath: string, targetHeaderId: Id, toRaw: ToRaw): map<string, OrgFile>
    requires RefileAllowed(files, sourcePath, sourceHeaderId, targetPath, targetHeaderId)
  {
    if sourcePath == targetPath then
      files[sourcePath := RefiledFileWithin(files[sourcePath], sourceHeaderId, targetHeaderId, toRaw)]
    else
      var both := RefiledFilesAcross(files[sourcePath], files[targetPath], sourceHeaderId, targetHeaderId, toRaw);
      files[sourcePath := both.0][targetPath := both.1]
  }

  // ---------------------------------------------------------------------------
  // One pass of the reducer's loop, as the reducer computes its indices
  // ---------------------------------------------------------------------------

  /** The inputs of the loop: within a file `target` is the file's own headers and
      `t` lies outside the moved subtree; across files the target's ids are
      unique and none of the subtree's occurs in it. */
  ghost predicate MoveSetting(original: seq<Header>, target: seq<Header>, i: nat, t: nat, inFile: bool,
                              targetHeaderId: Id)
  {
    UniqueIds(original) && i < |original| && t < |target| && targetHeaderId == target[t].id &&
    (inFile ==> target == original && OutsideSubtree(original, i, t)) &&
    (!inFile ==> UniqueIds(target) && SubtreeIdsFresh(original, i, target))
  }

  /** `x` is the subtree's `k`-th entry, re-indented as the loop re-indents it. */
  ghost predicate StepInput(original: seq<Header>, target: seq<Header>, i: nat, t: nat, inFile: bool,
                            targetHeaderId: Id, k: nat, x: Header)
  {
    MoveSetting(original, target, i, t, inFile, targetHeaderId) && i + k < SubtreeEnd(original, i) &&
    x == Reindented(original, i, k, target[t].nestingLevel)
  }

  /** The reducer's pass `k` on the lists `prev`: the entry's index and the
      destination (the target's index plus `k`) are in range, and the move
      yields `next`. */
  ghost predicate StepTakes(inFile: bool, prev: (seq<Header>, seq<Header>), k: nat, targetHeaderId: Id,
                            x: Header, next: (seq<Header>, seq<Header>))
  {
    var fromIndex := IndexOfHeaderWithId(prev.0, x.id);
    var toIndex := IndexOfHeaderWithId(prev.1, targetHeaderId) + k;
    0 <= fromIndex < |prev.0| && 0 <= toIndex < (if inFile then |prev.0| else |prev.1|) &&
    next == MoveItem(inFile, prev.0, fromIndex, prev.1, toIndex, x)
  }

  /** The reducer's pass takes `prev` to `next` when the entry and the target
      are found at `f` and `p` and the move of the entry to `p + k` gives `next`. */
  lemma TakesStep(inFile: bool, prev: (seq<Header>, seq<Header>), next: (seq<Header>, seq<Header>), k: nat,
                  targetHeaderId: Id, x: Header, f: nat, p: nat, to: nat)
    requires IndexOfHeaderWithId(prev.0, x.id) == f < |prev.0|
    requires IndexOfHeaderWithId(prev.1, targetHeaderId) == p && p + k == to
    requires to < (if inFile then |prev.0| else |prev.1|)
    requires MoveItem(inFile, prev.0, f, prev.1, to, x) == next
    ensures StepTakes(inFile, prev, k, targetHeaderId, x, next)
  {
  }

  /** Within a file, target before the subtree: the entry is found at `i + k`, the
      target at `t`, and moving the entry to `t + k` gives the next stage. */
  lemma LoopStepBefore(headers: seq<Header>, i: nat, t: nat, k: nat, targetHeaderId: Id, x: Header)
    requires StepInput(headers, headers, i, t, true, targetHeaderId, k, x) && t < i
    ensures var stage := StageBefore(headers, i, t, k);
      var next := StageBefore(headers, i, t, k + 1);
      StepTakes(true, (stage, stage), k, targetHeaderId, x, (next, next))
  {
    var stage, next := StageBefore(headers, i, t, k), StageBefore(headers, i, t, k + 1);
    assert x.id == headers[i + k].id;
    PositionsBefore(headers, i, t, k);
    var f, to := i + k, t + k;
    InFileStepBefore(headers, i, t, k, f, to);
    TakesStep(true, (stage, stage), (next, next), k, targetHeaderId, x, f, t, to);
  }

  /** Within a file, target after the subtree: the entry is found at `i`, the
      target at `t - k`, and moving the entry to `t` gives the next stage. */
  lemma LoopStepAfter(headers: seq<Header>, i: nat, t: nat, k: nat, targetHeaderId: Id, x: Header)
    requires StepInput(headers, headers, i, t, true, targetHeaderId, k, x) && i < t
    ensures var stage := StageAfter(headers, i, t, k);
      var next := StageAfter(headers, i, t, k + 1);
      StepTakes(true, (stage, stage), k, targetHeaderId, x, (next, next))
  {
    var stage, next := StageAfter(headers, i, t, k), StageAfter(headers, i, t, k + 1);
    assert x.id == headers[i + k].id;
    PositionsAfter(headers, i, t, k);
    InFileStepAfter(headers, i, t, k);
    TakesStep(true, (stage, stage), (next, next), k, targetHeaderId, x, i, t - k, t);
  }

  /** Across files: the entry is found at `i`, the target at `t`, and moving the
      entry after the target's `k`-th successor gives the next stage. */
  lemma LoopStepAcross(headers: seq<Header>, i: nat, target: seq<Header>, t: nat, k: nat,
                       targetHeaderId: Id, x: Header)
    requires StepInput(headers, target, i, t, false, targetHeaderId, k, x)
    ensures StepTakes(false, AcrossStage(headers, i, target, t, k), k, targetHeaderId, x,
                      AcrossStage(headers, i, target, t, k + 1))
  {
    var stage := AcrossStage(headers, i, target, t, k);
    assert x.id == headers[i + k].id;
    AcrossPositions(headers, i, target, t, k);
    AcrossStep(headers, i, target, t, k);
    TakesStep(false, stage, AcrossStage(headers, i, target, t, k + 1), k, targetHeaderId, x, i, t, t + k);
  }

  /** The two header lists (equal within one file) after `k` entries have moved. */
  ghost function Stage(original: seq<Header>, target: seq<Header>, i: nat, t: nat, inFile: bool, k: nat): (seq<Header>, seq<Header>)
    requires i < |original| && i + k <= SubtreeEnd(original, i)
    requires inFile ==> OutsideSubtree(original, i, t)
    requires !inFile ==> t < |target|
  {
    if inFile && t < i then (StageBefore(original, i, t, k), StageBefore(original, i, t, k))
    else if inFile then (StageAfter(original, i, t, k), StageAfter(original, i, t, k))
    else AcrossStage(original, i, target, t, k)
  }

  /** One pass of the reducer's loop, with the indices computed as it computes
      them, takes one stage to the next. */
  lemma LoopStep(original: seq<Header>, target: seq<Header>, i: nat, t: nat, inFile: bool, k: nat,
                 targetHeaderId: Id, x: Header)
    requires StepInput(original, target, i, t, inFile, targetHeaderId, k, x)
    ensures StepTakes(inFile, Stage(original, target, i, t, inFile, k), k, targetHeaderId, x,
                      Stage(original, target, i, t, inFile, k + 1))
  {
    if inFile && t < i {
      LoopStepBefore(original, i, t, k, targetHeaderId, x);
    } else if inFile {
      LoopStepAfter(original, i, t, k, targetHeaderId, x);
    } else {
      LoopStepAcross(original, i, target, t, k, targetHeaderId, x);
    }
  }

  /** Before the first move the stage is the input. */
  lemma StageStart(original: seq<Header>, target: seq<Header>, i: nat, t: nat, inFile: bool, targetHeaderId: Id)
    requires MoveSetting(original, target, i, t, inFile, targetHeaderId)
    ensures Stage(original, target, i, t, inFile, 0) == (original, target)
  {
    if inFile && t < i {
      StageBeforeStart(original, i, t);
    } else if inFile {
      StageAfterStart(original, i, t);
    } else {
      AcrossStageStart(original, i, target, t);
    }
  }

  /** After the last move the stage is the refiled headers. */
  lemma StageEnd(original: seq<Header>, target: seq<Header>, i: nat, t: nat, inFile: bool, targetHeaderId: Id)
    requires MoveSetting(original, target, i, t, inFile, targetHeaderId)
    ensures var stage := Stage(original, target, i, t, inFile, SubtreeEnd(original, i) - i);
      (inFile ==> stage.0 == stage.1 == RefiledWithin(original, i, t)) &&
      (!inFile ==> stage == RefiledAcross(original, i, target, t))
  {
  }

  /** The header's own move: taken out of the source and put right after the
      target, one level below it, it gives the first stage. */
  lemma HeaderStep(original: seq<Header>, target: seq<Header>, i: nat, t: nat, inFile: bool, targetHeaderId: Id)
    requires MoveSetting(original, target, i, t, inFile, targetHeaderId)
    ensures var x := original[i].(nestingLevel := target[t].nestingLevel + 1);
      MoveItem(inFile, original, i, target, t, x) == Stage(original, target, i, t, inFile, 1)
  {
    var x := original[i].(nestingLevel := target[t].nestingLevel + 1);
    assert x == Reindented(original, i, 0, target[t].nestingLevel);
    StageStart(original, target, i, t, inFile, targetHeaderId);
    LoopStep(original, target, i, t, inFile, 0, targetHeaderId, x);
    IndexOfUniqueId(original, i);
    IndexOfUniqueId(target, t);
  }

  /** The subheader the `forEach` visits at `index` is the subtree's entry
      `index + 1`, deeper than the subtree's root. */
  lemma SubheaderEntry(original: seq<Header>, i: nat, subheaders: seq<Header>, index: nat)
    requires i < |original| && subheaders == original[i + 1..SubtreeEnd(original, i)] && index < |subheaders|
    ensures subheaders[index] == original[i + (index + 1)]
    ensures original[i].nestingLevel < subheaders[index].nestingLevel
  {
    SubtreeEndDeeper(original, i);
    assert subheaders[index] == original[i + 1 + index];
  }

  /** Pass `index` of the `forEach` over the subheaders, on the lists after
      `k = index + 1` moves, with the indices as the reducer computes them: the
      subheader re-indented by the header's shift is moved from where it is found
      to `toIndex`, and that gives the next stage. */
  lemma SubheaderPass(original: seq<Header>, target: seq<Header>, i: nat, t: nat, inFile: bool,
                      targetHeaderId: Id, subheaders: seq<Header>, index: nat, k: nat,
                      prev: (seq<Header>, seq<Header>), subheader: Header,
                      fromIndex: int, targetHeaderIndex: int, toIndex: int)
    requires MoveSetting(original, target, i, t, inFile, targetHeaderId)
    requires subheaders == original[i + 1..SubtreeEnd(original, i)] && index < |subheaders| && k == index + 1
    requires prev == Stage(original, target, i, t, inFile, k)
    requires subheader == subheaders[index].(nestingLevel := subheader.nestingLevel)
    requires subheader.nestingLevel + original[i].nestingLevel == subheaders[index].nestingLevel + target[t].nestingLevel + 1
    requires fromIndex == IndexOfHeaderWithId(prev.0, subheader.id)
    requires targetHeaderIndex == IndexOfHeaderWithId(prev.1, targetHeaderId)
    requires toIndex == targetHeaderIndex + index + 1
    ensures MoveItem(inFile, prev.0, fromIndex, prev.1, toIndex, subheader) == Stage(original, target, i, t, inFile, k + 1)
  {
    SubheaderEntry(original, i, subheaders, index);
    assert subheader == Reindented(original, i, k, target[t].nestingLevel);
    LoopStep(original, target, i, t, inFile, k, targetHeaderId, subheader);
    assert toIndex == targetHeaderIndex + k;
  }

  /** What the header moves need: both headers present and the setting of the
      loop (see `MoveSetting`). */
  ghost predicate MoveAllowed(inFile: bool, sourceList: seq<Header>, targetList: seq<Header>, sourceHeaderId: Id,
                              targetHeaderId: Id)
  {
    IndexOfHeaderWithId(sourceList, sourceHeaderId) >= 0 && IndexOfHeaderWithId(targetList, targetHeaderId) >= 0 &&
    MoveSetting(sourceList, targetList, IndexOfHeaderWithId(sourceList, sourceHeaderId),
                IndexOfHeaderWithId(targetList, targetHeaderId), inFile, targetHeaderId)
  }

  /** The `forEach` of `refileSubtree` over the subheaders, from the lists after
      the header's own move: each subheader is re-indented by the header's shift
      and moved right after the entry placed before it, found from the target. */
  method MoveSubheaders(inFile: bool, ghost original: seq<Header>, ghost target: seq<Header>, ghost i: nat,
                        ghost t: nat, targetHeaderId: Id, subheadersOfSourceHeader: seq<Header>,
                        nestingLevelSource: nat, nestingLevelTarget: nat,
                        movedSource: seq<Header>, movedTarget: seq<Header>)
    returns (sourceHeaders: seq<Header>, targetHeaders: seq<Header>)
    requires MoveSetting(original, target, i, t, inFile, targetHeaderId)
    requires subheadersOfSourceHeader == original[i + 1..SubtreeEnd(original, i)]
    requires nestingLevelSource == original[i].nestingLevel && nestingLevelTarget == target[t].nestingLevel
    requires (movedSource, movedTarget) == Stage(original, target, i, t, inFile, 1)
    ensures (sourceHeaders, targetHeaders) == Stage(original, target, i, t, inFile, SubtreeEnd(original, i) - i)
  {
    sourceHeaders, targetHeaders := movedSource, movedTarget;
    var index := 0;
    ghost var k := 1;
    while index < |subheadersOfSourceHeader|
      invariant index <= |subheadersOfSourceHeader| && k == index + 1
      invariant (sourceHeaders, targetHeaders) == Stage(original, target, i, t, inFile, k)
    {
      var subheader := subheadersOfSourceHeader[index];
      SubheaderEntry(original, i, subheadersOfSourceHeader, index);
      subheader := subheader.(nestingLevel := subheader.nestingLevel - nestingLevelSource + nestingLevelTarget + 1);
      var fromIndex := IndexOfHeaderWithId(sourceHeaders, subheader.id);
      var targetHeaderIndex := IndexOfHeaderWithId(targetHeaders, targetHeaderId);
      var toIndex := targetHeaderIndex + index + 1;
      SubheaderPass(original, target, i, t, inFile, targetHeaderId, subheadersOfSourceHeader, index, k,
                    (sourceHeaders, targetHeaders), subheader, fromIndex, targetHeaderIndex, toIndex);
      var moved := MoveItem(inFile, sourceHeaders, fromIndex, targetHeaders, toIndex, subheader);
      sourceHeaders, targetHeaders := moved.0, moved.1;
      index := index + 1;
      k := k + 1;
    }
  }

  /** The header moves of `refileSubtree`: the header is moved first, right after
      the target and one level below it, then the subheaders follow it. */
  method MoveSubtree(inFile: bool, sourceList: seq<Header>, targetList: seq<Header>, sourceHeaderId: Id,
                     targetHeaderId: Id) returns (sourceHeaders: seq<Header>, targetHeaders: seq<Header>)
    requires MoveAllowed(inFile, sourceList, targetList, sourceHeaderId, targetHeaderId)
    ensures var i := IndexOfHeaderWithId(sourceList, sourceHeaderId);
      var t := IndexOfHeaderWithId(targetList, targetHeaderId);
      (inFile ==> sourceHeaders == targetHeaders == RefiledWithin(sourceList, i, t)) &&
      (!inFile ==> (sourceHeaders, targetHeaders) == RefiledAcross(sourceList, i, targetList, t))
  {
    var sourceHeaderIndex := IndexOfHeaderWithId(sourceList, sourceHeaderId);
    var sourceHeader := sourceList[sourceHeaderIndex];
    var targetHeaderIndex := IndexOfHeaderWithId(targetList, targetHeaderId);
    ghost var i: nat, t: nat := sourceHeaderIndex, targetHeaderIndex;
    var subheadersOfSourceHeader := SubheadersOfHeaderWithId(sourceList, sourceHeaderId);
    SubheadersOfIndex(sourceList, i);
    var nestingLevelSource := sourceList[sourceHeaderIndex].nestingLevel;
    var nestingLevelTarget := targetList[targetHeaderIndex].nestingLevel;
    sourceHeader := sourceHeader.(nestingLevel := nestingLevelTarget + 1);
    HeaderStep(sourceList, targetList, i, t, inFile, targetHeaderId);
    var moved := MoveItem(inFile, sourceList, sourceHeaderIndex, targetList, targetHeaderIndex, sourceHeader);
    sourceHeaders, targetHeaders := MoveSubheaders(inFile, sourceList, targetList, i, t, targetHeaderId,
                                                   subheadersOfSourceHeader, nestingLevelSource, nestingLevelTarget,
                                                   moved.0, moved.1);
    StageEnd(sourceList, targetList, i, t, inFile, targetHeaderId);
  }

  /** `refileSubtree`: the header moves, then both files' headers stored and the
      cookies of the source header and of the target recomputed in their files. */
  method RefileSubtree(files: map<string, OrgFile>, sourcePath: string, sourceHeaderId: Id,
                       targetPath: string, targetHeaderId: Id, toRaw: ToRaw)
    returns (r: map<string, OrgFile>)
    requires RefileAllowed(files, sourcePath, sourceHeaderId, targetPath, targetHeaderId)
    ensures r == Refiled(files, sourcePath, sourceHeaderId, targetPath, targetHeaderId, toRaw)
  {
    if sourcePath == targetPath {
      var file := RefileWithinFile(files[sourcePath], sourceHeaderId, targetHeaderId, toRaw);
      r := files[sourcePath := file];
    } else {
      var source, destination := RefileAcrossFiles(files[sourcePath], files[targetPath], sourceHeaderId,
                                                   targetHeaderId, toRaw);
      r := files[sourcePath := source][targetPath := destination];
    }
  }

  /** `refileSubtree` when source and target are one file (`moveItemInFile`). */
  method RefileWithinFile(file: OrgFile, sourceHeaderId: Id, targetHeaderId: Id, toRaw: ToRaw)
    returns (r: OrgFile)
    requires WithinAllowed(file, sourceHeaderId, targetHeaderId)
    ensures r == RefiledFileWithin(file, sourceHeaderId, targetHeaderId, toRaw)
  {
    var sourceHeaders, targetHeaders := MoveSubtree(true, file.headers, file.headers, sourceHeaderId, targetHeaderId);
    var moved := file.(headers := targetHeaders);
    r := UpdateCookiesOfHeaderWithId(moved, Some(sourceHeaderId), toRaw);
    r := UpdateCookiesOfHeaderWithId(r, Some(targetHeaderId), toRaw);
  }

  /** `refileSubtree` between two files (`moveItemAcrossFiles`). */
  method RefileAcrossFiles(source: OrgFile, target: OrgFile, sourceHeaderId: Id, targetHeaderId: Id, toRaw: ToRaw)
    returns (newSource: OrgFile, newTarget: OrgFile)
    requires AcrossAllowed(source, target, sourceHeaderId, targetHeaderId)
    ensures (newSource, newTarget) == RefiledFilesAcross(source, target, sourceHeaderId, targetHeaderId, toRaw)
  {
    var sourceHeaders, targetHeaders := MoveSubtree(false, source.headers, target.headers, sourceHeaderId, targetHeaderId);
    newSource := UpdateCookiesOfHeaderWithId(source.(headers := sourceHeaders), Some(sourceHeaderId), toRaw);
    newTarget := UpdateCookiesOfHeaderWithId(target.(headers := targetHeaders), Some(targetHeaderId), toRaw);
  }
}
